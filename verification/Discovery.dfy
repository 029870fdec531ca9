/**
 What FinalizeResponses (requests/requests.go) is to compute, stated by recursion over the
 list of requests and without its two "last seen" maps.
 */
module Discovery {

  /** What the pass reads of one request; `oldPath` is the discovery path its crawl log came with. */
  datatype Req = Req(
    url: string,
    networkId: string,
    referrer: string,
    initiator: string,
    hasLog: bool,
    oldPath: string)

  function Urls(rs: seq<Req>): (us: seq<string>)
    ensures |us| == |rs| && forall i :: 0 <= i < |rs| ==> us[i] == rs[i].url
  {
    seq(|rs|, i requires 0 <= i < |rs| => rs[i].url)
  }

  function Ids(rs: seq<Req>): (ids: seq<string>)
    ensures |ids| == |rs| && forall i :: 0 <= i < |rs| ==> ids[i] == rs[i].networkId
  {
    seq(|rs|, i requires 0 <= i < |rs| => rs[i].networkId)
  }

  /** The last index below `n` that holds `k`, or -1. */
  function Last(keys: seq<string>, n: nat, k: string): (r: int)
    requires n <= |keys|
    ensures -1 <= r < n
    ensures r >= 0 ==> keys[r] == k
    ensures forall j :: r < j < n ==> keys[j] != k
  {
    if n == 0 then -1 else if keys[n - 1] == k then n - 1 else Last(keys, n - 1, k)
  }

  /** The request that `i` is a redirect of: the nearest earlier one with its NetworkId, or -1. */
  function Parent(rs: seq<Req>, i: nat): (p: int)
    requires i < |rs|
    ensures -1 <= p < i
  {
    Last(Ids(rs), i, rs[i].networkId)
  }

  /** The request that referred to `i`: the latest one up to and including `i` with that url, or -1. */
  function Referrer(rs: seq<Req>, i: nat): (q: int)
    requires i < |rs|
    ensures -1 <= q <= i
  {
    Last(Urls(rs), i + 1, rs[i].referrer)
  }

  function Label(rs: seq<Req>, seed: string, i: nat): string
    requires i < |rs|
  {
    if i == 0 then seed
    else if rs[i].initiator == "script" then "X"
    else if Parent(rs, i) >= 0 then "R"
    else "E"
  }

  /** The request whose path `i` continues, or -1. It is `i` itself if only its own url is its referrer. */
  function Source(rs: seq<Req>, i: nat): (s: int)
    requires i < |rs|
    ensures -1 <= s <= i
    ensures 0 <= s < i ==> rs[s].hasLog
  {
    var p, q := Parent(rs, i), Referrer(rs, i);
    if p >= 0 && rs[p].hasLog then p else if q >= 0 && rs[q].hasLog then q else -1
  }

  function Path(rs: seq<Req>, seed: string, i: nat): string
    requires i < |rs| && rs[i].hasLog
    decreases i
  {
    var s := Source(rs, i);
    (if s < 0 then "" else if s == i then rs[i].oldPath else Path(rs, seed, s)) + Label(rs, seed, i)
  }

  /** The last request with the NetworkId of the first: the page at the end of its redirects. */
  function Root(rs: seq<Req>): (r: int)
    requires rs != []
    ensures 0 <= r < |rs|
    ensures rs[r].networkId == rs[0].networkId
    ensures forall j :: r < j < |rs| ==> rs[j].networkId != rs[0].networkId
  {
    Last(Ids(rs), |rs|, rs[0].networkId)
  }

  // ---------------------------------------------------------------- redirect chains

  /** The redirects that lead to `i`, oldest first. */
  function Chain(rs: seq<Req>, i: nat): seq<nat>
    requires i < |rs|
    decreases i
  {
    if Parent(rs, i) < 0 then [i] else Chain(rs, Parent(rs, i)) + [i]
  }

  /** The chain of `i` is made of the requests up to `i` with its NetworkId, in order and without gaps. */
  lemma {:induction false} ChainIsExact(rs: seq<Req>, i: nat)
    requires i < |rs|
    ensures var c := Chain(rs, i);
            && (forall j: nat :: j in c <==> j <= i && rs[j].networkId == rs[i].networkId)
            && (forall a, b :: 0 <= a < b < |c| ==> c[a] < c[b])
            && c[|c| - 1] == i
    decreases i
  {
    var p := Parent(rs, i);
    if p >= 0 {
      ChainIsExact(rs, p);
      assert forall j: nat :: p < j < i ==> Ids(rs)[j] != rs[i].networkId;
      forall j: nat ensures j in Chain(rs, i) <==> j <= i && rs[j].networkId == rs[i].networkId {
        assert j in Chain(rs, i) <==> j in Chain(rs, p) || j == i;
        assert p < j < i ==> Ids(rs)[j] == rs[j].networkId;
      }
    } else {
      assert forall j: nat :: j < i ==> Ids(rs)[j] != rs[i].networkId;
    }
  }

  /** Following parents from the root goes through exactly the redirects of the first request and ends there. */
  lemma {:induction false} RootChain(rs: seq<Req>)
    requires rs != []
    ensures var c := Chain(rs, Root(rs));
            && c[0] == 0
            && (forall j: nat :: j in c <==> j < |rs| && rs[j].networkId == rs[0].networkId)
  {
    ChainIsExact(rs, Root(rs));
    var c := Chain(rs, Root(rs));
    assert 0 in c;
    var k :| 0 <= k < |c| && c[k] == 0;
    assert k == 0;
  }

  // ---------------------------------------------------------------- the shape of a path

  predicate Word(w: string) { forall k :: 0 <= k < |w| ==> w[k] in {'R', 'E', 'X'} }

  /** No request names its own url as its referrer. */
  predicate NoSelfReferrer(rs: seq<Req>) {
    forall i :: 0 <= i < |rs| ==> rs[i].referrer != rs[i].url
  }

  lemma {:induction false} OwnReferrer(rs: seq<Req>, i: nat)
    requires i < |rs|
    ensures Referrer(rs, i) == i <==> rs[i].referrer == rs[i].url
  {
    assert Urls(rs)[i] == rs[i].url;
  }

  /** Does the discovery of `i` start from the first request? */
  predicate FromSeed(rs: seq<Req>, i: nat)
    requires i < |rs|
    decreases i
  {
    var s := Source(rs, i);
    i == 0 || (0 <= s < i && FromSeed(rs, s))
  }

  /** Steps of discovery between the start and `i`. */
  function Hops(rs: seq<Req>, i: nat): nat
    requires i < |rs|
    decreases i
  {
    var s := Source(rs, i);
    if 0 <= s < i then Hops(rs, s) + 1 else 0
  }

  /**
   A path is the seed's path, for what was discovered from the first request, or nothing,
   followed by one letter R, E or X for each step of discovery.
   */
  lemma {:induction false} PathShape(rs: seq<Req>, seed: string, i: nat) returns (w: string)
    requires i < |rs| && rs[i].hasLog && NoSelfReferrer(rs)
    ensures Word(w)
    ensures FromSeed(rs, i) ==> Path(rs, seed, i) == seed + w && |w| == Hops(rs, i)
    ensures !FromSeed(rs, i) ==> Path(rs, seed, i) == w && |w| == Hops(rs, i) + 1
    decreases i
  {
    OwnReferrer(rs, i);
    var s := Source(rs, i);
    if i == 0 {
      w := "";
    } else if s < 0 {
      w := Label(rs, seed, i);
    } else {
      var v := PathShape(rs, seed, s);
      w := v + Label(rs, seed, i);
    }
  }

  // ---------------------------------------------------------------- applying the pass twice

  /** The list as the pass leaves it: every crawl log holds its path. */
  function Finalized(rs: seq<Req>, seed: string): (rs': seq<Req>)
    ensures |rs'| == |rs|
    ensures forall i :: 0 <= i < |rs| ==> rs'[i] == if rs[i].hasLog then rs[i].(oldPath := Path(rs, seed, i)) else rs[i]
  {
    seq(|rs|, i requires 0 <= i < |rs| => if rs[i].hasLog then rs[i].(oldPath := Path(rs, seed, i)) else rs[i])
  }

  // ---------------------------------------------------------------- what a finalized path says

  /** The nearest request before `i` with its NetworkId. */
  predicate IsNearest(rs: seq<Req>, i: nat, p: int) {
    && 0 <= p < i < |rs| && rs[p].networkId == rs[i].networkId
    && forall j :: p < j < i ==> rs[j].networkId != rs[i].networkId
  }

  /** The latest request up to `i` whose url is the referrer of `i`. */
  predicate IsLatestReferrer(rs: seq<Req>, i: nat, q: int) {
    && 0 <= q <= i < |rs| && rs[q].url == rs[i].referrer
    && forall j :: q < j <= i ==> rs[j].url != rs[i].referrer
  }

  predicate SharesEarlier(rs: seq<Req>, i: nat)
    requires i < |rs|
  {
    exists j :: 0 <= j < i && rs[j].networkId == rs[i].networkId
  }

  /** `front` is the path that request `i` continues, `done` being the list as the pass leaves it. */
  ghost predicate Continues(rs: seq<Req>, done: seq<Req>, i: nat, front: string)
    requires i < |rs| == |done|
  {
    if exists p :: IsNearest(rs, i, p) && rs[p].hasLog then
      forall p :: IsNearest(rs, i, p) ==> front == done[p].oldPath
    else if exists q :: IsLatestReferrer(rs, i, q) && rs[q].hasLog then
      forall q :: IsLatestReferrer(rs, i, q) ==> front == if q < i then done[q].oldPath else rs[i].oldPath
    else front == ""
  }

  /**
   What the path of a request says, in terms of the list before and after the pass: for the first
   request it ends in the seed's path; for any other in one letter, X if and only if the
   initiator is a script, else R if and only if an earlier request has its NetworkId, else
   E. What stands before is the path of the nearest earlier request with the NetworkId, if
   that has a crawl log; else of the latest request with the referrer's url, if that has
   one; else nothing.
   */
  ghost predicate PathSays(rs: seq<Req>, done: seq<Req>, seed: string, i: nat)
    requires i < |rs| == |done|
  {
    var path := done[i].oldPath;
    if i == 0 then |seed| <= |path| && path[|path| - |seed|..] == seed && Continues(rs, done, 0, path[..|path| - |seed|])
    else
      && path != ""
      && (path[|path| - 1] == 'X' <==> rs[i].initiator == "script")
      && (path[|path| - 1] == 'R' <==> rs[i].initiator != "script" && SharesEarlier(rs, i))
      && (path[|path| - 1] == 'E' <==> rs[i].initiator != "script" && !SharesEarlier(rs, i))
      && Continues(rs, done, i, path[..|path| - 1])
  }

  lemma ParentIsNearest(rs: seq<Req>, i: nat, p: int)
    requires i < |rs|
    ensures IsNearest(rs, i, p) <==> p >= 0 && p == Parent(rs, i)
    ensures Parent(rs, i) >= 0 <==> SharesEarlier(rs, i)
  {
    var ids := Ids(rs);
    assert forall j :: 0 <= j < |rs| ==> ids[j] == rs[j].networkId;
    var l := Parent(rs, i);
    assert l >= 0 ==> ids[l] == rs[i].networkId;
    if IsNearest(rs, i, p) {
      assert ids[p] == rs[i].networkId;
    }
    if SharesEarlier(rs, i) {
      var j :| 0 <= j < i && rs[j].networkId == rs[i].networkId;
      assert ids[j] == rs[i].networkId;
    }
  }

  lemma ReferrerIsLatest(rs: seq<Req>, i: nat, q: int)
    requires i < |rs|
    ensures IsLatestReferrer(rs, i, q) <==> q >= 0 && q == Referrer(rs, i)
  {
    var urls := Urls(rs);
    assert forall j :: 0 <= j < |rs| ==> urls[j] == rs[j].url;
    var l := Referrer(rs, i);
    assert l >= 0 ==> urls[l] == rs[i].referrer;
    if IsLatestReferrer(rs, i, q) {
      assert urls[q] == rs[i].referrer;
    }
  }

  /** The path that a request continues, by the recursive definition. */
  function Front(rs: seq<Req>, seed: string, i: nat): string
    requires i < |rs| && rs[i].hasLog
  {
    var s := Source(rs, i);
    if s < 0 then "" else if s == i then rs[i].oldPath else Path(rs, seed, s)
  }

  lemma {:induction false} FrontContinues(rs: seq<Req>, seed: string, i: nat)
    requires i < |rs| && rs[i].hasLog
    ensures Continues(rs, Finalized(rs, seed), i, Front(rs, seed, i))
  {
    var p, q := Parent(rs, i), Referrer(rs, i);
    forall x ensures IsNearest(rs, i, x) <==> x >= 0 && x == p {
      ParentIsNearest(rs, i, x);
    }
    forall x ensures IsLatestReferrer(rs, i, x) <==> x >= 0 && x == q {
      ReferrerIsLatest(rs, i, x);
    }
  }

  lemma {:induction false} FinalizedPathSays(rs: seq<Req>, seed: string, i: nat)
    requires i < |rs| && rs[i].hasLog
    ensures PathSays(rs, Finalized(rs, seed), seed, i)
  {
    var done := Finalized(rs, seed);
    var front, text := Front(rs, seed, i), Label(rs, seed, i);
    assert done[i].oldPath == front + text;
    assert (front + text)[..|front|] == front && (front + text)[|front|..] == text;
    FrontContinues(rs, seed, i);
    ParentIsNearest(rs, i, -1);
  }

  lemma SameLinks(rs: seq<Req>, seed: string, i: nat)
    requires i < |rs|
    ensures var rs' := Finalized(rs, seed);
            Parent(rs', i) == Parent(rs, i) && Referrer(rs', i) == Referrer(rs, i)
            && Source(rs', i) == Source(rs, i) && Label(rs', seed, i) == Label(rs, seed, i)
  {
    assert Ids(Finalized(rs, seed)) == Ids(rs);
    assert Urls(Finalized(rs, seed)) == Urls(rs);
  }

  /** A second pass adds its label once more to a request that continues its own path. */
  predicate GrowsOnRepeat(rs: seq<Req>, seed: string, i: nat)
    requires i < |rs|
  {
    rs[i].hasLog && Source(rs, i) == i && Label(rs, seed, i) != ""
  }

  lemma {:induction false} StablePath(rs: seq<Req>, seed: string, i: nat)
    requires i < |rs| && rs[i].hasLog
    requires forall j: nat :: j < |rs| ==> !GrowsOnRepeat(rs, seed, j)
    ensures Path(Finalized(rs, seed), seed, i) == Path(rs, seed, i)
    decreases i
  {
    SameLinks(rs, seed, i);
    var s := Source(rs, i);
    if 0 <= s < i {
      StablePath(rs, seed, s);
    }
    if s == i {
      assert !GrowsOnRepeat(rs, seed, i);
    }
  }

  /**
   Running the pass again changes nothing exactly when no request with a crawl log continues
   its own path: none has its own url as referrer, unless it is redirected from a request
   with a crawl log, or is the first and the seed has the empty path.
   */
  lemma {:induction false} RepeatIsIdentityExactlyWhen(rs: seq<Req>, seed: string)
    ensures Finalized(Finalized(rs, seed), seed) == Finalized(rs, seed)
            <==> forall i: nat :: i < |rs| ==> !GrowsOnRepeat(rs, seed, i)
    ensures NoSelfReferrer(rs) ==> Finalized(Finalized(rs, seed), seed) == Finalized(rs, seed)
    ensures rs != [] ==> Root(Finalized(rs, seed)) == Root(rs)
  {
    var rs1 := Finalized(rs, seed);
    var rs2 := Finalized(rs1, seed);
    assert Ids(rs1) == Ids(rs);
    if forall i: nat :: i < |rs| ==> !GrowsOnRepeat(rs, seed, i) {
      forall i | 0 <= i < |rs| ensures rs2[i] == rs1[i] {
        if rs[i].hasLog {
          StablePath(rs, seed, i);
        }
      }
    } else {
      var i: nat :| i < |rs| && GrowsOnRepeat(rs, seed, i);
      SameLinks(rs, seed, i);
      assert |rs2[i].oldPath| == |rs1[i].oldPath| + |Label(rs, seed, i)|;
    }
    if NoSelfReferrer(rs) {
      forall i: nat | i < |rs| ensures !GrowsOnRepeat(rs, seed, i) {
        OwnReferrer(rs, i);
      }
    }
  }

  /** A page that names itself as its referrer: its path grows with every pass. */
  lemma SelfReferrer()
    ensures var rs := [Req("u", "n", "u", "", true, "p")];
            Finalized(Finalized(rs, "S"), "S") != Finalized(rs, "S")
  {
    var rs := [Req("u", "n", "u", "", true, "p")];
    OwnReferrer(rs, 0);
    assert GrowsOnRepeat(rs, "S", 0);
    RepeatIsIdentityExactlyWhen(rs, "S");
  }
}
