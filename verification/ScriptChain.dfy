/**
 The script interpreter of script/script.go. `execute` is the browser: what it answers to the
 k-th call is the k-th element of `answers`, whatever it depends on, so that a claim about all
 sequences of answers is a claim about all browsers. JSON texts are modelled as already parsed.
 */
module ScriptChain {
  import opened GoBasics

  datatype Annotation = Annotation(key: string, value: string)

  datatype Config = Config(id: string, name: string, annotations: seq<Annotation>)

  datatype Json = Bool(b: bool) | Number(n: int) | Text(s: string) | List(items: seq<Json>) | Struct(fields: map<string, Json>)

  /** The `data` field of a return value: left out, null, an object, or any other JSON value. */
  datatype Data = Absent | Null | Object(fields: map<string, Json>) | NotObject

  datatype Answer =
    | ExecuteError                                             // execute returns an error
    | NoResult                                                 // a nil result
    | Malformed                                                // a result that is no ReturnValue
    | Value(waitForData: bool, next: string, data: Data)

  datatype Call = Execute(script: Config, arguments: map<string, Json>) | Wait

  datatype Outcome =
    | Finished
    | Missing(id: string)
    | ExecuteFailed(name: string, id: string)
    | BadResult(name: string, id: string)
    | BadData(name: string, id: string)
    | Unfinished                                               // the answers ran out first

  /** What one call of Run is given, and what the browser answers. */
  datatype Chain = Chain(start: string, scripts: map<string, Config>, seed: seq<Annotation>, answers: seq<Answer>)

  // ---------------------------------------------------------------- arguments

  predicate HasKey(s: seq<Annotation>, key: string) {
    exists i :: 0 <= i < |s| && s[i].key == key
  }

  function Keys(s: seq<Annotation>): (r: set<string>)
    ensures forall k :: k in r <==> HasKey(s, k)
  {
    set i | 0 <= i < |s| :: s[i].key
  }

  /** The value of the last annotation with the key. */
  function LastValue(s: seq<Annotation>, key: string): (r: string)
    requires HasKey(s, key)
    ensures exists i :: 0 <= i < |s| && s[i] == Annotation(key, r) && forall j :: i < j < |s| ==> s[j].key != key
  {
    var last := s[|s| - 1];
    if last.key == key then last.value else LastValue(s[..|s| - 1], key)
  }

  /** A script's own annotations say which seed annotations it is given. */
  function Annotated(script: seq<Annotation>, seed: seq<Annotation>): map<string, Json> {
    map k | k in Keys(script) && k in Keys(seed) :: Text(LastValue(seed, k))
  }

  // ---------------------------------------------------------------- the chain

  predicate Continues(a: Answer) { a.Value? && !a.data.NotObject? }

  function Successor(script: Config, a: Answer): string
    requires a.Value?
  {
    if a.next == "self" then script.id else a.next
  }

  /** The id that is up after `k` answers; empty once the chain has ended. */
  function Id(c: Chain, k: nat): string
    requires k <= |c.answers|
  {
    if k == 0 then c.start
    else
      var p := Id(c, k - 1);
      if p != "" && p in c.scripts && Continues(c.answers[k - 1])
      then Successor(c.scripts[p], c.answers[k - 1]) else ""
  }

  /** Whether there is a `k`-th execution. */
  predicate Live(c: Chain, k: nat) { k < |c.answers| && Id(c, k) != "" && Id(c, k) in c.scripts }

  /** The data the `k`-th execution is given. */
  function Carried(c: Chain, k: nat): map<string, Json>
    requires k <= |c.answers|
  {
    if k == 0 then map[]
    else
      var a := c.answers[k - 1];
      if a.Value? && a.data.Object? then Carried(c, k - 1) + a.data.fields else map[]
  }

  function Arguments(c: Chain, k: nat): map<string, Json>
    requires Live(c, k)
  {
    Annotated(c.scripts[Id(c, k)].annotations, c.seed) + Carried(c, k)
  }

  /** A chain that runs at least `k` executions. */
  predicate Reaches(c: Chain, k: nat) { k == 0 || Live(c, k - 1) }

  /** The calls made by the first `k` executions. */
  function Calls(c: Chain, k: nat): seq<Call>
    requires Reaches(c, k)
  {
    if k == 0 then []
    else Calls(c, k - 1) + [Execute(c.scripts[Id(c, k - 1)], Arguments(c, k - 1))] +
         if Continues(c.answers[k - 1]) && c.answers[k - 1].waitForData then [Wait] else []
  }

  /** How a chain of `n` executions ends. */
  function Ending(c: Chain, n: nat): Outcome
    requires Reaches(c, n)
  {
    if n > 0 && !Continues(c.answers[n - 1]) then
      var id := Id(c, n - 1);
      var s := c.scripts[id];
      match c.answers[n - 1]
      case ExecuteError => ExecuteFailed(s.name, id)
      case NoResult => Finished
      case Malformed => BadResult(s.name, id)
      case Value(_, _, _) => BadData(s.name, Successor(s, c.answers[n - 1]))   // the id is the next one's, line 94
    else if Id(c, n) == "" then Finished
    else if Id(c, n) !in c.scripts then Missing(Id(c, n))
    else Unfinished
  }

  /** A whole run: `n` executions and not one more. */
  predicate RunsFor(c: Chain, n: nat) { Reaches(c, n) && !Live(c, n) }

  // ---------------------------------------------------------------- the interpreter

  function Bind(params: map<string, Json>, seed: seq<Annotation>, key: string): map<string, Json> {
    if HasKey(seed, key) then params[key := Text(LastValue(seed, key))] else params
  }

  lemma BindExtends(params: map<string, Json>, seed: seq<Annotation>, a: Annotation, key: string)
    ensures Bind(params, seed + [a], key) ==
              if a.key == key then Bind(params, seed, key)[key := Text(a.value)] else Bind(params, seed, key)
  {
    HasKeyExtends(seed, a, key);
  }

  lemma AnnotatedExtends(script: seq<Annotation>, a: Annotation, seed: seq<Annotation>)
    ensures Annotated(script + [a], seed) == Bind(Annotated(script, seed), seed, a.key)
  {
    forall k ensures k in Keys(script + [a]) <==> k in Keys(script) || k == a.key {
      HasKeyExtends(script, a, k);
    }
  }

  /** The two nested loops of lines 56-63. */
  method BindAnnotations(script: seq<Annotation>, seed: seq<Annotation>) returns (params: map<string, Json>)
    ensures params == Annotated(script, seed)
  {
    params := map[];
    for i := 0 to |script|
      invariant params == Annotated(script[..i], seed)
    {
      ghost var before := params;
      for j := 0 to |seed|
        invariant params == Bind(before, seed[..j], script[i].key)
      {
        BindExtends(before, seed[..j], seed[j], script[i].key);
        assert seed[..j + 1] == seed[..j] + [seed[j]];
        if seed[j].key == script[i].key {
          params := params[seed[j].key := Text(seed[j].value)];
        }
      }
      assert seed[..|seed|] == seed;
      assert script[..i + 1] == script[..i] + [script[i]];
      AnnotatedExtends(script[..i], script[i], seed);
    }
    assert script[..|script|] == script;
  }

  lemma HasKeyExtends(s: seq<Annotation>, a: Annotation, key: string)
    ensures HasKey(s + [a], key) <==> HasKey(s, key) || a.key == key
    ensures a.key == key ==> LastValue(s + [a], key) == a.value
    ensures a.key != key && HasKey(s, key) ==> LastValue(s + [a], key) == LastValue(s, key)
  {
    assert (s + [a])[|s|] == a;
    assert (s + [a])[..|s|] == s;
    if HasKey(s, key) {
      var i :| 0 <= i < |s| && s[i].key == key;
      assert (s + [a])[i].key == key;
    }
  }

  /** Lines 65-67; Go visits the entries of a map in any order. */
  method Override(params: map<string, Json>, data: map<string, Json>) returns (r: map<string, Json>)
    ensures r == params + data
  {
    r := params;
    var rest := data.Keys;
    while rest != {}
      invariant rest <= data.Keys
      invariant r == params + map k | k in data && k !in rest :: data[k]
      decreases rest
    {
      var key :| key in rest;
      r := r[key := data[key]];
      rest := rest - {key};
    }
    assert data == map k | k in data && k !in rest :: data[k];
  }

  /** Run (lines 40-104): the calls it makes, in order, how it ends, and after how many executions. */
  method Run(c: Chain) returns (calls: seq<Call>, outcome: Outcome, n: nat)
    ensures RunsFor(c, n)
    ensures calls == Calls(c, n)
    ensures outcome == Ending(c, n)
    ensures exists at :: IsTrace(c, calls, at) && EndsAs(c, calls, at, outcome) && |at| == n
  {
    calls, outcome, n := Interpret(c);
    ghost var at := CallsAreATrace(c, n);
    EndingIs(c, n, at);
  }

  /** The loop of lines 49-102. */
  method Interpret(c: Chain) returns (calls: seq<Call>, outcome: Outcome, n: nat)
    ensures RunsFor(c, n)
    ensures calls == Calls(c, n)
    ensures outcome == Ending(c, n)
  {
    var next, data := c.start, map[];
    calls, n := [], 0;
    while next != ""
      invariant n <= |c.answers|
      invariant Reaches(c, n)
      invariant next == Id(c, n) && data == Carried(c, n)
      invariant calls == Calls(c, n)
      invariant n > 0 ==> Continues(c.answers[n - 1])
      decreases |c.answers| - n
    {
      if next !in c.scripts {
        return calls, Missing(next), n;
      }
      var script := c.scripts[next];
      var params := BindAnnotations(script.annotations, c.seed);
      params := Override(params, data);
      if n == |c.answers| {
        return calls, Unfinished, n;
      }
      var res := c.answers[n];
      calls, n := calls + [Execute(script, params)], n + 1;
      match res {
        case ExecuteError => return calls, ExecuteFailed(script.name, next), n;
        case NoResult => return calls, Finished, n;
        case Malformed => return calls, BadResult(script.name, next), n;
        case Value(waitForData, following, returned) =>
          next := if following == "self" then script.id else following;
          match returned {
            case NotObject => return calls, BadData(script.name, next), n;
            case Object(fields) => data := Override(data, fields);
            case Null => data := map[];
            case Absent => data := map[];
          }
          if waitForData {
            calls := calls + [Wait];
          }
      }
    }
    outcome := Finished;
  }

  // ---------------------------------------------------------------- what a run is

  /** The executions of a chain are consecutive, so only one number of them fits it. */
  lemma {:induction false} LiveBefore(c: Chain, j: nat, k: nat)
    requires Live(c, k) && j <= k
    ensures Live(c, j) && (j < k ==> Continues(c.answers[j]))
    decreases k - j
  {
    if j < k {
      LiveBefore(c, j + 1, k);
    }
  }

  lemma {:induction false} RunIsDetermined(c: Chain, n: nat, m: nat)
    requires RunsFor(c, n) && RunsFor(c, m)
    ensures n == m
  {
    if n < m {
      LiveBefore(c, n, m - 1);
    } else if m < n {
      LiveBefore(c, m, n - 1);
    }
  }

  /**
   The ids run follow the answers' `next`: when the map is keyed by id, "self" runs the same
   script again, and anything else runs the script of that id.
   */
  lemma {:induction false} IdsFollowNext(c: Chain, k: nat)
    requires Live(c, k + 1)
    requires forall id :: id in c.scripts ==> c.scripts[id].id == id
    ensures Live(c, k) && Continues(c.answers[k])
    ensures var a := c.answers[k]; var s := c.scripts[Id(c, k + 1)];
            && s.id == (if a.next == "self" then c.scripts[Id(c, k)].id else a.next)
  {
    assert Id(c, k + 1) != "";
  }

  /** The arguments: which keys there are, and where each value comes from. */
  lemma {:induction false} ArgumentsAre(c: Chain, k: nat)
    requires Live(c, k)
    ensures var own := Keys(c.scripts[Id(c, k)].annotations);
            var args := Arguments(c, k);
            && args.Keys == own * Keys(c.seed) + Carried(c, k).Keys
            && forall key :: key in args ==>
                 if key in Carried(c, k) then args[key] == Carried(c, k)[key]
                 else exists i :: 0 <= i < |c.seed| && c.seed[i].key == key && args[key] == Text(c.seed[i].value)
                                  && forall j :: i < j < |c.seed| ==> c.seed[j].key != key
  {
    var args := Arguments(c, k);
    forall key | key in args && key !in Carried(c, k)
      ensures exists i :: 0 <= i < |c.seed| && c.seed[i].key == key && args[key] == Text(c.seed[i].value)
                          && forall j :: i < j < |c.seed| ==> c.seed[j].key != key
    {
      var v := LastValue(c.seed, key);
      var i :| 0 <= i < |c.seed| && c.seed[i] == Annotation(key, v) && forall j :: i < j < |c.seed| ==> c.seed[j].key != key;
    }
  }

  predicate Returns(c: Chain, j: nat, key: string)
    requires j < |c.answers|
  {
    var a := c.answers[j];
    a.Value? && a.data.Object? && key in a.data.fields
  }

  /** No answer from `j` up to `k` was without an object. */
  ghost predicate NoReset(c: Chain, j: nat, k: nat)
    requires j <= k <= |c.answers|
  {
    forall i :: j <= i < k ==> c.answers[i].Value? && c.answers[i].data.Object?
  }

  /** Answer `j` is the one execution `k` has the key from. */
  ghost predicate Provides(c: Chain, j: nat, k: nat, key: string)
    requires j < k <= |c.answers|
  {
    && Returns(c, j, key) && NoReset(c, j, k)
    && forall i :: j < i < k ==> !Returns(c, i, key)
  }

  /**
   The data carried over is the right-biased merge of every object returned since the last
   answer without one: a key is there if and only if some such answer gave it, and the
   latest one decides.
   */
  lemma {:induction false} CarriedIsTheMerge(c: Chain, k: nat, key: string)
    requires k <= |c.answers|
    ensures key in Carried(c, k) <==> exists j :: 0 <= j < k && Provides(c, j, k, key)
    ensures forall j :: 0 <= j < k && Provides(c, j, k, key) ==> Carried(c, k)[key] == c.answers[j].data.fields[key]
    decreases k
  {
    if k > 0 {
      CarriedIsTheMerge(c, k - 1, key);
      var a := c.answers[k - 1];
      if a.Value? && a.data.Object? {
        if key in a.data.fields {
          assert Provides(c, k - 1, k, key);
        } else {
          forall j | 0 <= j < k - 1 ensures Provides(c, j, k, key) <==> Provides(c, j, k - 1, key) {
            ProvidesStep(c, j, k, key);
          }
          var m := k - 1;
          if j :| 0 <= j < m && Provides(c, j, m, key) {
            assert Provides(c, j, k, key);
          }
        }
      }
    }
  }

  lemma ProvidesStep(c: Chain, j: nat, k: nat, key: string)
    requires j < k - 1 < |c.answers|
    requires c.answers[k - 1].Value? && c.answers[k - 1].data.Object? && !Returns(c, k - 1, key)
    ensures Provides(c, j, k, key) <==> Provides(c, j, k - 1, key)
  {
  }

  /**
   The calls: the k-th execution gets the k-th arguments; it is followed at once by exactly
   one wait if its answer asked for one and its data could be read, and then by the next execution.
   */
  lemma {:induction false} CallsAre(c: Chain, n: nat, k: nat)
    requires k < n && Reaches(c, n)
    ensures Live(c, k)
    ensures var at := |Calls(c, k)|; var calls := Calls(c, n);
            var waits := Continues(c.answers[k]) && c.answers[k].waitForData;
            && at < |calls|
            && calls[at] == Execute(c.scripts[Id(c, k)], Arguments(c, k))
            && (waits ==> at + 1 < |calls| && calls[at + 1] == Wait)
            && |Calls(c, k + 1)| == at + (if waits then 2 else 1) <= |calls|
            && Calls(c, k + 1) <= calls
    decreases n
  {
    LiveBefore(c, k, n - 1);
    if k < n - 1 {
      CallsAre(c, n - 1, k);
    }
  }

  /** And there are no other calls: each is the execution of some round, or the wait right behind it. */
  lemma {:induction false} EveryCallBelongs(c: Chain, n: nat, i: nat) returns (k: nat)
    requires Reaches(c, n) && i < |Calls(c, n)|
    ensures k < n && Live(c, k)
    ensures i == |Calls(c, k)| || (i == |Calls(c, k)| + 1 && Calls(c, n)[i] == Wait
                                      && Continues(c.answers[k]) && c.answers[k].waitForData)
    decreases n
  {
    if i < |Calls(c, n - 1)| {
      k := EveryCallBelongs(c, n - 1, i);
    } else {
      k := n - 1;
    }
  }

  /**
   A run ends without an error if and only if its last execution had no result or said there
   is nothing next, or nothing was to be run in the first place.
   */
  lemma FinishedExactlyWhen(c: Chain, n: nat)
    requires RunsFor(c, n)
    ensures Ending(c, n) == Finished <==>
              if n == 0 then c.start == ""
              else var a := c.answers[n - 1];
                   || a.NoResult?
                   || (Continues(a) && (a.next == "" || (a.next == "self" && c.scripts[Id(c, n - 1)].id == "")))
  {
  }

  /** What each way of stopping means, and which script it names: for bad data the one that was to be next. */
  lemma {:induction false} StopsForGoodReason(c: Chain, n: nat)
    requires RunsFor(c, n)
    ensures Ending(c, n).Missing? ==> Ending(c, n).id != "" && Ending(c, n).id !in c.scripts
    ensures Ending(c, n).Unfinished? ==> n == |c.answers| && Id(c, n) in c.scripts
    ensures Ending(c, n).ExecuteFailed? <==> n > 0 && c.answers[n - 1].ExecuteError?
    ensures Ending(c, n).BadResult? <==> n > 0 && c.answers[n - 1].Malformed?
    ensures Ending(c, n).BadData? <==> n > 0 && c.answers[n - 1].Value? && c.answers[n - 1].data.NotObject?
    ensures Ending(c, n).ExecuteFailed? || Ending(c, n).BadResult? ==> Ending(c, n).id == Id(c, n - 1)
    ensures Ending(c, n).BadData? ==> Ending(c, n).id == Successor(c.scripts[Id(c, n - 1)], c.answers[n - 1])
    ensures forall i :: 0 <= i < n - 1 ==> Continues(c.answers[i])
  {
    forall i | 0 <= i < n - 1 ensures Continues(c.answers[i]) {
      LiveBefore(c, i, n - 1);
    }
  }

  /** Nothing bounds a chain: a script that always names itself is run as often as it answers. */
  lemma {:induction false} SelfRunsOn(c: Chain, k: nat)
    requires k <= |c.answers| && c.start in c.scripts && c.start != "" && c.scripts[c.start].id == c.start
    requires forall i :: 0 <= i < |c.answers| ==> Continues(c.answers[i]) && c.answers[i].next == "self"
    ensures Id(c, k) == c.start
    decreases k
  {
    if k > 0 {
      SelfRunsOn(c, k - 1);
    }
  }

  // ---------------------------------------------------------------- a run told by its calls alone

  /** The last annotation with the key has this value. */
  predicate LastOf(s: seq<Annotation>, key: string, value: Json) {
    exists i :: 0 <= i < |s| && s[i].key == key && value == Text(s[i].value) && forall j :: i < j < |s| ==> s[j].key != key
  }

  ghost predicate Provided(c: Chain, k: nat, key: string)
    requires k <= |c.answers|
  {
    exists j :: 0 <= j < k && Provides(c, j, k, key)
  }

  ghost predicate FromAnswer(c: Chain, k: nat, key: string, value: Json)
    requires k <= |c.answers|
  {
    exists j :: 0 <= j < k && Provides(c, j, k, key) && value == c.answers[j].data.fields[key]
  }

  /** Whether the arguments have the key, and with which value. */
  ghost predicate GivenAt(c: Chain, script: Config, k: nat, args: map<string, Json>, key: string)
    requires k <= |c.answers|
  {
    && (key in args <==> Provided(c, k, key) || (HasKey(script.annotations, key) && HasKey(c.seed, key)))
    && (key in args ==> if Provided(c, k, key) then FromAnswer(c, k, key, args[key]) else LastOf(c.seed, key, args[key]))
  }

  /**
   What the `k`-th execution is given if it is of this script: whatever earlier answers provide, and
   for the other keys that the script is annotated with what the seed has, in its last annotation.
   */
  ghost predicate Given(c: Chain, script: Config, k: nat, args: map<string, Json>)
    requires k <= |c.answers|
  {
    forall key :: GivenAt(c, script, k, args, key)
  }

  lemma {:induction false} GivenKey(c: Chain, k: nat, key: string)
    requires Live(c, k)
    ensures GivenAt(c, c.scripts[Id(c, k)], k, Arguments(c, k), key)
  {
    CarriedIsTheMerge(c, k, key);
    if key in Carried(c, k) {
      var j :| 0 <= j < k && Provides(c, j, k, key);
      assert Carried(c, k)[key] == c.answers[j].data.fields[key];
    } else if key in Arguments(c, k) {
      var v := LastValue(c.seed, key);
      var i :| 0 <= i < |c.seed| && c.seed[i] == Annotation(key, v) && forall j :: i < j < |c.seed| ==> c.seed[j].key != key;
      assert LastOf(c.seed, key, Arguments(c, k)[key]);
    }
  }

  lemma GivenArguments(c: Chain, k: nat)
    requires Live(c, k)
    ensures Given(c, c.scripts[Id(c, k)], k, Arguments(c, k))
  {
    forall key ensures GivenAt(c, c.scripts[Id(c, k)], k, Arguments(c, k), key) {
      GivenKey(c, k, key);
    }
  }

  predicate Waits(a: Answer) { a.Value? && !a.data.NotObject? && a.waitForData }

  /** The id an answer of the script names. */
  function Names(s: Config, a: Answer): string
    requires a.Value?
  {
    if a.next == "self" then s.id else a.next
  }

  /** The `k`-th execution is the call at `at[k]`: what it runs, with what, and what comes behind it. */
  ghost predicate IsExecution(c: Chain, calls: seq<Call>, at: seq<nat>, k: nat)
    requires k < |at| <= |c.answers|
  {
    && at[k] < |calls| && calls[at[k]].Execute?
    && Given(c, calls[at[k]].script, k, calls[at[k]].arguments)
    && (k == 0 ==> at[0] == 0 && c.start != "" && c.start in c.scripts && calls[0].script == c.scripts[c.start])
    && (Waits(c.answers[k]) ==> at[k] + 1 < |calls| && calls[at[k] + 1] == Wait)
    && (if k + 1 < |at| then at[k + 1] else |calls|) == at[k] + if Waits(c.answers[k]) then 2 else 1
  }

  /** The `k`-th answer leads to the next execution. */
  ghost predicate LeadsOn(c: Chain, calls: seq<Call>, at: seq<nat>, k: nat)
    requires k + 1 < |at| <= |c.answers|
  {
    var a := c.answers[k];
    && at[k] < |calls| && calls[at[k]].Execute? && at[k + 1] < |calls| && calls[at[k + 1]].Execute?
    && a.Value? && !a.data.NotObject?
    && var id := Names(calls[at[k]].script, a); id != "" && id in c.scripts && calls[at[k + 1]].script == c.scripts[id]
  }

  ghost predicate IsTrace(c: Chain, calls: seq<Call>, at: seq<nat>) {
    && |at| <= |c.answers| && (at == [] ==> calls == [])
    && (forall k :: 0 <= k < |at| ==> IsExecution(c, calls, at, k))
    && forall k :: 0 <= k < |at| - 1 ==> LeadsOn(c, calls, at, k)
  }

  /** How the run ends, by the last answer; an execution that failed is named by the id it was found under. */
  ghost predicate EndsAs(c: Chain, calls: seq<Call>, at: seq<nat>, outcome: Outcome)
    requires IsTrace(c, calls, at)
  {
    if at == [] then ComesTo(c, c.start, outcome)
    else
      var n := |at|;
      assert IsExecution(c, calls, at, n - 1);
      var s, a := calls[at[n - 1]].script, c.answers[n - 1];
      match a
      case ExecuteError => outcome.ExecuteFailed? && outcome.name == s.name && outcome.id in c.scripts && c.scripts[outcome.id] == s
      case NoResult => outcome == Finished
      case Malformed => outcome.BadResult? && outcome.name == s.name && outcome.id in c.scripts && c.scripts[outcome.id] == s
      case Value(_, _, data) =>
        if data.NotObject? then outcome == BadData(s.name, Names(s, a)) else ComesTo(c, Names(s, a), outcome) && (outcome.Unfinished? ==> n == |c.answers|)
  }

  predicate ComesTo(c: Chain, next: string, outcome: Outcome) {
    outcome == if next == "" then Finished else if next !in c.scripts then Missing(next) else Unfinished
  }

  /** Call `i` of the run is the `k`-th execution. */
  predicate RunsThere(c: Chain, n: nat, i: nat, k: nat)
    requires Reaches(c, n) && Live(c, k)
  {
    i < |Calls(c, n)| && Calls(c, n)[i] == Execute(c.scripts[Id(c, k)], Arguments(c, k))
  }

  lemma IsExecutionAt(c: Chain, n: nat, at: seq<nat>, k: nat)
    requires Reaches(c, n) && |at| == n <= |c.answers| && k < n && Live(c, k)
    requires at[k] == |Calls(c, k)| && (k + 1 < n ==> at[k + 1] == |Calls(c, k + 1)|)
    ensures IsExecution(c, Calls(c, n), at, k) && RunsThere(c, n, at[k], k)
  {
    CallsAre(c, n, k);
    GivenArguments(c, k);
    if k + 1 == n {
      assert |Calls(c, k + 1)| == |Calls(c, n)|;
    }
  }

  lemma LeadsOnAt(c: Chain, n: nat, at: seq<nat>, k: nat)
    requires Reaches(c, n) && |at| == n <= |c.answers| && k + 1 < n && Live(c, k) && Live(c, k + 1)
    requires RunsThere(c, n, at[k], k) && RunsThere(c, n, at[k + 1], k + 1)
    ensures LeadsOn(c, Calls(c, n), at, k)
  {
    LiveBefore(c, k, k + 1);
  }

  /** What a run does, for every map of scripts, seed and browser, in terms of its calls. */
  lemma {:induction false} CallsAreATrace(c: Chain, n: nat) returns (at: seq<nat>)
    requires Reaches(c, n)
    ensures IsTrace(c, Calls(c, n), at) && |at| == n
    ensures forall k :: 0 <= k < n ==> Live(c, k) && RunsThere(c, n, at[k], k)
  {
    forall k | 0 <= k < n ensures Live(c, k) {
      LiveBefore(c, k, n - 1);
    }
    at := seq(n, k requires 0 <= k < n => |Calls(c, k)|);
    forall k | 0 <= k < n ensures IsExecution(c, Calls(c, n), at, k) && RunsThere(c, n, at[k], k) {
      IsExecutionAt(c, n, at, k);
    }
    forall k | 0 <= k < n - 1 ensures LeadsOn(c, Calls(c, n), at, k) {
      LeadsOnAt(c, n, at, k);
    }
  }

  lemma EndingIs(c: Chain, n: nat, at: seq<nat>)
    requires RunsFor(c, n) && |at| == n && IsTrace(c, Calls(c, n), at)
    requires forall k :: 0 <= k < n ==> Live(c, k) && RunsThere(c, n, at[k], k)
    ensures EndsAs(c, Calls(c, n), at, Ending(c, n))
  {
    StopsForGoodReason(c, n);
    if n > 0 {
      assert RunsThere(c, n, at[n - 1], n - 1);
    }
  }
}
