/**
 Which scripts a session uses, and in what order (session/script.go). URL normalization and
 regular expressions are given as functions; nothing is said about them.
 */
module SessionScripts {
  import opened GoBasics
  import opened ScriptChain

  datatype ScriptType = UndefinedType | ExtractOutlinks | Replacement | OnLoad | OnNewDocument | ScopeCheck

  datatype Script = Script(config: Config, kind: ScriptType, urlRegexp: seq<string>)

  /** package url and package regexp: `longest` is the length of the leftmost-longest match, 0 if there is none. */
  datatype Library = Library(
    normalize: string -> string,
    compiles: string -> bool,
    matches: (string, string) -> bool,
    longest: (string, string) -> nat)

  // ---------------------------------------------------------------- match

  ghost predicate Matches(lib: Library, regExps: seq<string>, uri: string) {
    regExps == [] || exists i :: 0 <= i < |regExps| && lib.compiles(regExps[i]) && lib.matches(regExps[i], lib.normalize(uri))
  }

  /** match, lines 267-283: a list without patterns matches everything, a pattern that does not compile nothing. */
  method Match(lib: Library, regExps: seq<string>, uri: string) returns (r: bool)
    ensures r <==> regExps == [] || exists i :: 0 <= i < |regExps| && lib.compiles(regExps[i]) && lib.matches(regExps[i], lib.normalize(uri))
    ensures r <==> Matches(lib, regExps, uri)
  {
    if |regExps| == 0 {
      return true;
    }
    var normalizedUri := lib.normalize(uri);
    for i := 0 to |regExps|
      invariant forall j :: 0 <= j < i ==> !(lib.compiles(regExps[j]) && lib.matches(regExps[j], normalizedUri))
    {
      if !lib.compiles(regExps[i]) {
        continue;
      }
      if lib.matches(regExps[i], normalizedUri) {
        return true;
      }
    }
    return false;
  }

  // ---------------------------------------------------------------- loadScripts

  /** The scripts of a browser configuration that a session on `uri` keeps under type `t`. */
  ghost predicate Kept(lib: Library, uri: string, t: ScriptType, s: Script) {
    s.kind == t != ScopeCheck && Matches(lib, s.urlRegexp, uri)
  }

  ghost function KeptAs(lib: Library, uri: string, t: ScriptType): Script -> bool {
    s => Kept(lib, uri, t, s)
  }

  ghost function Selection(lib: Library, uri: string, all: seq<Script>, t: ScriptType): seq<Script> {
    Select(all, KeptAs(lib, uri, t))
  }

  /** Each script of the list that is kept is kept once, under its own type, and in its place. */
  lemma {:induction false} SelectionIsAPartition(lib: Library, uri: string, all: seq<Script>, t: ScriptType)
    ensures var at := Where(all, KeptAs(lib, uri, t)); var r := Selection(lib, uri, all, t);
            && |r| == |at| && (forall k, l :: 0 <= k < l < |at| ==> at[k] < at[l])
            && (forall k :: 0 <= k < |r| ==> r[k] == all[at[k]] && r[k].kind == t)
            && (forall i :: 0 <= i < |all| ==>
                  (i in at <==> all[i].kind == t && t != ScopeCheck && Matches(lib, all[i].urlRegexp, uri)))
  {
    WhereIsExact(all, KeptAs(lib, uri, t));
    var at := Where(all, KeptAs(lib, uri, t));
    forall k | 0 <= k < |at| ensures all[at[k]].kind == t {
      assert at[k] in at;
    }
  }

  /** type sessionScripts. */
  class SessionScripts {
    var scripts: map<ScriptType, seq<Script>>
    const blacklist: seq<ScriptType>

    constructor ()
      ensures scripts == map[] && blacklist == [ScopeCheck]
    {
      scripts := map[];
      blacklist := [ScopeCheck];
    }

    method IsBlacklisted(scriptType: ScriptType) returns (r: bool)
      ensures r <==> scriptType in blacklist
    {
      for i := 0 to |blacklist|
        invariant scriptType !in blacklist[..i]
      {
        if scriptType == blacklist[i] {
          return true;
        }
      }
      return false;
    }

    /** The list under a type; none of Go's maps lacks a value for a key. */
    function Get(scriptType: ScriptType): seq<Script>
      reads this
    {
      if scriptType in scripts then scripts[scriptType] else []
    }
  }

  /**
   loadScripts, lines 64-82, on the scripts the config cache has found: the scripts of
   each type are those of the configuration that are not blacklisted and match the URL,
   in the configuration's order.
   */
  method LoadScripts(lib: Library, uri: string, found: seq<Script>) returns (bs: SessionScripts)
    ensures fresh(bs)
    ensures forall t :: bs.Get(t) == Selection(lib, uri, found, t)
  {
    bs := new SessionScripts();
    for i := 0 to |found|
      invariant fresh(bs) && bs.blacklist == [ScopeCheck]
      invariant forall t :: bs.Get(t) == Selection(lib, uri, found[..i], t)
    {
      var s := found[i];
      assert found[..i + 1] == found[..i] + [s];
      forall t ensures Selection(lib, uri, found[..i + 1], t) ==
                         Selection(lib, uri, found[..i], t) + if Kept(lib, uri, t, s) then [s] else [] {
        SelectExtends(found[..i], s, KeptAs(lib, uri, t));
      }
      var listed := bs.IsBlacklisted(s.kind);
      if listed {
        continue;
      }
      var matched := Match(lib, s.urlRegexp, uri);
      if !matched {
        continue;
      }
      bs.scripts := bs.scripts[s.kind := bs.Get(s.kind) + [s]];
    }
    assert found[..|found|] == found;
  }

  // ---------------------------------------------------------------- GetReplacementScript

  /** How much of the URL pattern `j` of replacement script `i` matches. */
  function Length(lib: Library, rs: seq<Script>, uri: string, i: nat, j: nat): nat
    requires i < |rs| && j < |rs[i].urlRegexp|
  {
    var p := rs[i].urlRegexp[j];
    if lib.compiles(p) then lib.longest(p, lib.normalize(uri)) else 0
  }

  /** No pattern that comes before pattern `j` of script `i` matches more than `best`. */
  ghost predicate AtMost(lib: Library, rs: seq<Script>, uri: string, i: nat, j: nat, best: nat) {
    && i <= |rs|
    && (forall a, b :: 0 <= a < i && 0 <= b < |rs[a].urlRegexp| ==> Length(lib, rs, uri, a, b) <= best)
    && (i < |rs| ==> forall b :: 0 <= b < j && b < |rs[i].urlRegexp| ==> Length(lib, rs, uri, i, b) <= best)
  }

  /** Pattern `b` of script `a` is the first to match as much as it does. */
  ghost predicate FirstToMatch(lib: Library, rs: seq<Script>, uri: string, a: nat, b: nat) {
    && a < |rs| && b < |rs[a].urlRegexp|
    && Length(lib, rs, uri, a, b) > 0
    && AtMost(lib, rs, uri, a, b, Length(lib, rs, uri, a, b) - 1)
  }

  /** What the search knows before pattern `j` of script `i`. */
  ghost predicate BestSoFar(lib: Library, rs: seq<Script>, uri: string, i: nat, j: nat,
                            best: Option<Script>, longest: nat, a: nat, b: nat) {
    && AtMost(lib, rs, uri, i, j, longest)
    && (best.None? <==> longest == 0)
    && (best.Some? ==> FirstToMatch(lib, rs, uri, a, b) && best.value == rs[a] && longest == Length(lib, rs, uri, a, b))
  }

  lemma OneMorePattern(lib: Library, rs: seq<Script>, uri: string, i: nat, j: nat,
                       best: Option<Script>, longest: nat, a: nat, b: nat)
    requires i < |rs| && j < |rs[i].urlRegexp| && BestSoFar(lib, rs, uri, i, j, best, longest, a, b)
    ensures var l := Length(lib, rs, uri, i, j);
            if l > longest then BestSoFar(lib, rs, uri, i, j + 1, Some(rs[i]), l, i, j)
            else BestSoFar(lib, rs, uri, i, j + 1, best, longest, a, b)
  {}

  /** No pattern matches more of the URL, and none before it as much. */
  ghost predicate IsBestPattern(lib: Library, rs: seq<Script>, url: string, a: nat, b: nat)
    requires a < |rs| && b < |rs[a].urlRegexp|
  {
    var p := rs[a].urlRegexp[b];
    && lib.compiles(p) && lib.longest(p, url) > 0
    && forall i, j :: 0 <= i < |rs| && 0 <= j < |rs[i].urlRegexp| && lib.compiles(rs[i].urlRegexp[j]) ==>
         && lib.longest(rs[i].urlRegexp[j], url) <= lib.longest(p, url)
         && (i < a || (i == a && j < b) ==> lib.longest(rs[i].urlRegexp[j], url) < lib.longest(p, url))
  }

  lemma BestIs(lib: Library, rs: seq<Script>, uri: string, a: nat, b: nat)
    requires FirstToMatch(lib, rs, uri, a, b) && AtMost(lib, rs, uri, |rs|, 0, Length(lib, rs, uri, a, b))
    ensures IsBestPattern(lib, rs, lib.normalize(uri), a, b)
  {
    forall i, j | 0 <= i < |rs| && 0 <= j < |rs[i].urlRegexp| && lib.compiles(rs[i].urlRegexp[j])
      ensures lib.longest(rs[i].urlRegexp[j], lib.normalize(uri)) == Length(lib, rs, uri, i, j) <= Length(lib, rs, uri, a, b)
      ensures i < a || (i == a && j < b) ==> Length(lib, rs, uri, i, j) < Length(lib, rs, uri, a, b)
    {}
  }

  lemma NoneIs(lib: Library, rs: seq<Script>, uri: string)
    requires AtMost(lib, rs, uri, |rs|, 0, 0)
    ensures forall i, j :: 0 <= i < |rs| && 0 <= j < |rs[i].urlRegexp| && lib.compiles(rs[i].urlRegexp[j])
              ==> lib.longest(rs[i].urlRegexp[j], lib.normalize(uri)) == 0
  {
    forall i, j | 0 <= i < |rs| && 0 <= j < |rs[i].urlRegexp| && lib.compiles(rs[i].urlRegexp[j])
      ensures lib.longest(rs[i].urlRegexp[j], lib.normalize(uri)) == 0
    {
      assert Length(lib, rs, uri, i, j) == 0;
    }
  }

  /**
   GetReplacementScript, lines 84-109: the script with the first pattern that matches the
   longest non-empty piece of the URL, and none if and only if no pattern matches a
   non-empty piece.
   */
  method GetReplacementScript(lib: Library, replacements: seq<Script>, uri: string)
    returns (best: Option<Script>, ghost a: nat, ghost b: nat)
    ensures best.None? <==>
              forall i, j :: 0 <= i < |replacements| && 0 <= j < |replacements[i].urlRegexp| ==> Length(lib, replacements, uri, i, j) == 0
    ensures best.Some? ==>
              && FirstToMatch(lib, replacements, uri, a, b) && best.value == replacements[a]
              && AtMost(lib, replacements, uri, |replacements|, 0, Length(lib, replacements, uri, a, b))
    ensures best.None? ==>
              forall i, j :: 0 <= i < |replacements| && 0 <= j < |replacements[i].urlRegexp| && lib.compiles(replacements[i].urlRegexp[j])
                ==> lib.longest(replacements[i].urlRegexp[j], lib.normalize(uri)) == 0
    ensures best.Some? ==>
              && a < |replacements| && b < |replacements[a].urlRegexp| && best.value == replacements[a]
              && IsBestPattern(lib, replacements, lib.normalize(uri), a, b)
  {
    best, a, b := None, 0, 0;
    if |replacements| == 0 {
      return;
    }
    var normalizedUri := lib.normalize(uri);
    var longestMatch := 0;
    for i := 0 to |replacements|
      invariant BestSoFar(lib, replacements, uri, i, 0, best, longestMatch, a, b)
    {
      var bc := replacements[i];
      for j := 0 to |bc.urlRegexp|
        invariant BestSoFar(lib, replacements, uri, i, j, best, longestMatch, a, b)
      {
        OneMorePattern(lib, replacements, uri, i, j, best, longestMatch, a, b);
        if lib.compiles(bc.urlRegexp[j]) {
          var l := lib.longest(bc.urlRegexp[j], normalizedUri);
          if l > 0 && l > longestMatch {
            longestMatch := l;
            best, a, b := Some(bc), i, j;
          }
        }
      }
    }
    if best.Some? {
      BestIs(lib, replacements, uri, a, b);
    } else {
      NoneIs(lib, replacements, uri);
    }
  }

  /** The choice does not depend on anything but the lengths: two patterns cannot both be first with the longest match. */
  lemma {:induction false} ReplacementIsUnique(lib: Library, rs: seq<Script>, uri: string, a: nat, b: nat, c: nat, d: nat)
    requires FirstToMatch(lib, rs, uri, a, b) && AtMost(lib, rs, uri, |rs|, 0, Length(lib, rs, uri, a, b))
    requires FirstToMatch(lib, rs, uri, c, d) && AtMost(lib, rs, uri, |rs|, 0, Length(lib, rs, uri, c, d))
    ensures a == c && b == d
  {
    assert Length(lib, rs, uri, a, b) == Length(lib, rs, uri, c, d);
  }

  // ---------------------------------------------------------------- executeScripts

  /** The map executeScripts has built when every script of `added` was put into it (lines 178-184). */
  function ById(added: seq<Script>): map<string, Config> {
    if added == [] then map[]
    else ById(added[..|added| - 1])[added[|added| - 1].config.id := added[|added| - 1].config]
  }

  ghost predicate HasId(added: seq<Script>, id: string) {
    exists i :: 0 <= i < |added| && added[i].config.id == id
  }

  /** The map is keyed by id, has every id that was added, and the last script of an id is the one that counts. */
  lemma {:induction false} ByIdIsExact(added: seq<Script>, id: string)
    ensures id in ById(added) <==> HasId(added, id)
    ensures id in ById(added) ==>
              exists i :: 0 <= i < |added| && added[i].config == ById(added)[id] && added[i].config.id == id
                          && forall j :: i < j < |added| ==> added[j].config.id != id
  {
    if added != [] {
      var n := |added| - 1;
      ByIdIsExact(added[..n], id);
      if added[n].config.id != id && id in ById(added[..n]) {
        var i :| 0 <= i < n && added[..n][i].config == ById(added[..n])[id] && added[..n][i].config.id == id
                 && forall j :: i < j < n ==> added[..n][j].config.id != id;
        assert added[i].config.id == id;
        assert forall j :: i < j < n ==> added[..n][j] == added[j];
      }
      if HasId(added, id) && added[n].config.id != id {
        var i :| 0 <= i < |added| && added[i].config.id == id;
        assert added[..n][i].config.id == id;
      }
    }
  }

  /** The chain that starts from the `i`-th script of the type. */
  function ChainAt(undefined: seq<Script>, initial: seq<Script>, seed: seq<Annotation>, answers: seq<Answer>, i: nat): Chain
    requires i < |initial|
  {
    Chain(initial[i].config.id, ById(undefined + initial[..i + 1]), seed, answers)
  }

  datatype Result = Done | Unsupported | NoContext | ChainStopped(outcome: Outcome)

  /** The record of one chain. */
  datatype Record = Record(calls: seq<Call>, outcome: Outcome)

  ghost predicate Records(c: Chain, n: nat, r: Record) {
    RunsFor(c, n) && r.calls == Calls(c, n) && r.outcome == Ending(c, n)
  }

  /** The records of the first chains, in order. */
  ghost predicate AllRecorded(undefined: seq<Script>, initial: seq<Script>, seed: seq<Annotation>,
                              answers: seq<seq<Answer>>, ns: seq<nat>, records: seq<Record>) {
    && |records| == |ns| <= |initial| == |answers|
    && forall i :: 0 <= i < |ns| ==> Records(ChainAt(undefined, initial, seed, answers[i], i), ns[i], records[i])
  }

  /** The map has the ids of the scripts added, each with the last script that has it. */
  ghost predicate IsMapOf(scripts: map<string, Config>, added: seq<Script>) {
    forall id ::
      && (id in scripts <==> HasId(added, id))
      && (id in scripts ==>
            exists i :: 0 <= i < |added| && added[i].config == scripts[id] && added[i].config.id == id
                        && forall j :: i < j < |added| ==> added[j].config.id != id)
  }

  /** The record of a chain from the `i`-th script: what was called with what, and how it ended. */
  ghost predicate TellsOf(undefined: seq<Script>, initial: seq<Script>, seed: seq<Annotation>, answers: seq<Answer>, i: nat, r: Record)
    requires i < |initial|
  {
    exists scripts, at ::
      && IsMapOf(scripts, undefined + initial[..i + 1])
      && var c := Chain(initial[i].config.id, scripts, seed, answers);
         IsTrace(c, r.calls, at) && EndsAs(c, r.calls, at, r.outcome)
  }

  lemma RecordTells(undefined: seq<Script>, initial: seq<Script>, seed: seq<Annotation>, answers: seq<Answer>, i: nat, n: nat, r: Record)
    requires i < |initial| && Records(ChainAt(undefined, initial, seed, answers, i), n, r)
    ensures TellsOf(undefined, initial, seed, answers, i, r)
  {
    var added := undefined + initial[..i + 1];
    forall id ensures id in ById(added) <==> HasId(added, id)
      ensures id in ById(added) ==>
                exists i :: 0 <= i < |added| && added[i].config == ById(added)[id] && added[i].config.id == id
                            && forall j :: i < j < |added| ==> added[j].config.id != id
    {
      ByIdIsExact(added, id);
    }
    var c := ChainAt(undefined, initial, seed, answers, i);
    var at := CallsAreATrace(c, n);
    EndingIs(c, n, at);
    assert IsMapOf(c.scripts, added) && IsTrace(c, r.calls, at);
  }

  lemma RecordedExtends(undefined: seq<Script>, initial: seq<Script>, seed: seq<Annotation>,
                        answers: seq<seq<Answer>>, ns: seq<nat>, records: seq<Record>, n: nat, r: Record)
    requires AllRecorded(undefined, initial, seed, answers, ns, records) && |ns| < |initial|
    requires Records(ChainAt(undefined, initial, seed, answers[|ns|], |ns|), n, r)
    ensures AllRecorded(undefined, initial, seed, answers, ns + [n], records + [r])
  {
  }

  lemma InitialAdded(undefined: seq<Script>, initial: seq<Script>, i: nat)
    requires i < |initial|
    ensures ById(undefined + initial[..i + 1]) ==
              ById(undefined + initial[..i])[initial[i].config.id := initial[i].config]
  {
    var all := undefined + initial[..i + 1];
    assert all[|all| - 1] == initial[i] && all[..|all| - 1] == undefined + initial[..i];
  }

  ghost predicate AllFinished(records: seq<Record>) {
    forall i :: 0 <= i < |records| ==> records[i].outcome == Finished
  }

  /** Lines 178-181. */
  method AddAll(undefined: seq<Script>) returns (scripts: map<string, Config>)
    ensures scripts == ById(undefined)
  {
    scripts := map[];
    for i := 0 to |undefined|
      invariant scripts == ById(undefined[..i])
    {
      assert undefined[..i + 1][..i] == undefined[..i];
      scripts := scripts[undefined[i].config.id := undefined[i].config];
    }
    assert undefined[..|undefined|] == undefined;
  }

  method RunChain(c: Chain) returns (record: Record, n: nat)
    ensures Records(c, n, record)
  {
    var calls, outcome;
    calls, outcome, n := Run(c);
    record := Record(calls, outcome);
  }

  /**
   executeScripts, lines 112-191: one chain for every script of the type, in order, each
   with the scripts added so far, until one does not finish. `answers[i]` is what the browser
   answers to the executions of chain `i`.
   */
  method ExecuteScripts(undefined: seq<Script>, initial: seq<Script>, scriptType: ScriptType, seed: seq<Annotation>,
                        context: bool, answers: seq<seq<Answer>>)
    returns (records: seq<Record>, result: Result, ghost ns: seq<nat>)
    requires |answers| == |initial|
    ensures AllRecorded(undefined, initial, seed, answers, ns, records)
    ensures forall i :: 0 <= i < |records| ==> TellsOf(undefined, initial, seed, answers[i], i, records[i])
    ensures records != [] ==> AllFinished(records[..|records| - 1])
    ensures match result
            case Unsupported => scriptType != OnLoad && scriptType != OnNewDocument && records == []
            case NoContext => scriptType == OnLoad && !context && records == []
            case ChainStopped(o) => records != [] && records[|records| - 1].outcome == o != Finished
            case Done => |records| == |initial| && AllFinished(records)
  {
    records, result, ns := RunChains(undefined, initial, scriptType, seed, context, answers);
    forall i | 0 <= i < |records| ensures TellsOf(undefined, initial, seed, answers[i], i, records[i]) {
      RecordTells(undefined, initial, seed, answers[i], i, ns[i], records[i]);
    }
  }

  /** Lines 131-190. */
  method RunChains(undefined: seq<Script>, initial: seq<Script>, scriptType: ScriptType, seed: seq<Annotation>,
                   context: bool, answers: seq<seq<Answer>>)
    returns (records: seq<Record>, result: Result, ghost ns: seq<nat>)
    requires |answers| == |initial|
    ensures AllRecorded(undefined, initial, seed, answers, ns, records)
    ensures records != [] ==> AllFinished(records[..|records| - 1])
    ensures match result
            case Unsupported => scriptType != OnLoad && scriptType != OnNewDocument && records == []
            case NoContext => scriptType == OnLoad && !context && records == []
            case ChainStopped(o) => records != [] && records[|records| - 1].outcome == o != Finished
            case Done => |records| == |initial| && AllFinished(records)
  {
    records, result, ns := [], Done, [];
    match scriptType {
      case OnLoad =>
        if !context {
          result := NoContext;
          return;
        }
      case OnNewDocument =>
      case _ =>
        result := Unsupported;
        return;
    }
    var scripts := AddAll(undefined);
    assert undefined == undefined + initial[..0];
    for i := 0 to |initial|
      invariant |ns| == i && AllRecorded(undefined, initial, seed, answers, ns, records) && AllFinished(records)
      invariant scripts == ById(undefined + initial[..i])
    {
      var s := initial[i];
      InitialAdded(undefined, initial, i);
      scripts := scripts[s.config.id := s.config];
      var record, n := RunChain(Chain(s.config.id, scripts, seed, answers[i]));
      RecordedExtends(undefined, initial, seed, answers, ns, records, n, record);
      records, ns := records + [record], ns + [n];
      if record.outcome != Finished {
        result := ChainStopped(record.outcome);
        return;
      }
    }
  }

  /** Whether some browser makes the `i`-th chain execute the script of an id. */
  ghost predicate CanExecute(undefined: seq<Script>, initial: seq<Script>, seed: seq<Annotation>, i: nat, id: string)
    requires i < |initial|
  {
    exists answers, k :: Live(ChainAt(undefined, initial, seed, answers, i), k)
                         && Id(ChainAt(undefined, initial, seed, answers, i), k) == id
  }

  /** Only a chain that starts from a script called "self" ever runs one. */
  lemma {:induction false} SelfIsAName(c: Chain, k: nat)
    requires Live(c, k) && c.start != "self"
    requires forall id :: id in c.scripts ==> c.scripts[id].id == id
    ensures Id(c, k) != "self"
    decreases k
  {
    if k > 0 {
      LiveBefore(c, k - 1, k);
      SelfIsAName(c, k - 1);
    }
  }

  /**
   The `i`-th chain reaches exactly the scripts of undefined type and the first i + 1 scripts
   of its own type: not those that come later. Two kinds of ids are out of reach, the empty
   one, which ends a chain, and "self", which is no name for another script.
   */
  lemma {:induction false} ReachesExactly(undefined: seq<Script>, initial: seq<Script>, seed: seq<Annotation>, i: nat, id: string)
    requires i < |initial|
    ensures CanExecute(undefined, initial, seed, i, id) <==>
              && HasId(undefined + initial[..i + 1], id)
              && id != "" && initial[i].config.id != ""
              && (id == "self" ==> initial[i].config.id == "self")
  {
    var all := undefined + initial[..i + 1];
    var start := initial[i].config.id;
    forall x ensures x in ById(all) <==> HasId(all, x) ensures x in ById(all) ==> ById(all)[x].id == x {
      ByIdIsExact(all, x);
    }
    assert all[|all| - 1] == initial[i];
    if HasId(all, id) && id != "" && start != "" && (id == "self" ==> start == "self") {
      var answers := [Value(false, id, Absent), NoResult];
      var c := ChainAt(undefined, initial, seed, answers, i);
      assert Id(c, 0) == start && Live(c, 0);
      assert Id(c, 1) == id;
      assert Live(c, 1);
    }
    if CanExecute(undefined, initial, seed, i, id) {
      var answers, k :| Live(ChainAt(undefined, initial, seed, answers, i), k)
                        && Id(ChainAt(undefined, initial, seed, answers, i), k) == id;
      var c := ChainAt(undefined, initial, seed, answers, i);
      LiveBefore(c, 0, k);
      if start != "self" {
        SelfIsAName(c, k);
      }
    }
  }
}
