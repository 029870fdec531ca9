/** The request registry of requests/requests.go, updated in place. */
module Requests {
  import opened GoBasics
  import opened Discovery

  class CrawlLog {
    const warcId: string
    const size: int
    var referrer: string
    var discoveryPath: string

    constructor (warcId: string, size: int, referrer: string, discoveryPath: string)
      ensures this.warcId == warcId && this.size == size
      ensures this.referrer == referrer && this.discoveryPath == discoveryPath
    {
      this.warcId, this.size, this.referrer, this.discoveryPath := warcId, size, referrer, discoveryPath;
    }
  }

  class Request {
    const url: string
    const requestId: string
    const networkId: string
    const referrer: string
    var crawlLog: CrawlLog?
    var gotNew: bool
    var gotComplete: bool
    var initiator: string
    var redirectParent: Request?
    var fromCache: bool

    /** A request as session/eventlisteners.go creates it when the browser pauses one. */
    constructor (url: string, requestId: string, networkId: string, referrer: string)
      ensures this.url == url && this.requestId == requestId && this.networkId == networkId
      ensures this.referrer == referrer && initiator == ""
      ensures crawlLog == null && redirectParent == null && !gotNew && !gotComplete && !fromCache
    {
      this.url, this.requestId, this.networkId, this.referrer := url, requestId, networkId, referrer;
      crawlLog, redirectParent, initiator := null, null, "";
      gotNew, gotComplete, fromCache := false, false, false;
    }
  }

  /** Appending requests changes nothing about the last index below an old bound. */
  lemma {:induction false} LastPrefix(keys: seq<string>, more: seq<string>, n: nat, k: string)
    requires n <= |keys| && keys <= more
    ensures Last(more, n, k) == Last(keys, n, k)
  {
    if n > 0 {
      LastPrefix(keys, more, n - 1, k);
    }
  }

  lemma ParentPrefix(rs: seq<Req>, more: seq<Req>, i: nat)
    requires i < |rs| <= |more| && forall j :: 0 <= j < |rs| ==> more[j] == rs[j]
    ensures Parent(more, i) == Parent(rs, i)
  {
    assert Ids(rs) <= Ids(more);
    LastPrefix(Ids(rs), Ids(more), i, rs[i].networkId);
  }

  lemma SameIds(rs: seq<Req>, rs2: seq<Req>, i: nat)
    requires i < |rs| == |rs2| && forall j :: 0 <= j < |rs| ==> rs2[j].networkId == rs[j].networkId
    ensures Parent(rs2, i) == Parent(rs, i)
  {
    assert Ids(rs2) == Ids(rs);
  }

  ghost function Entry(r: Request): Req
    reads r, r.crawlLog
  {
    Req(r.url, r.networkId, r.referrer, r.initiator, r.crawlLog != null,
        if r.crawlLog == null then "" else r.crawlLog.discoveryPath)
  }

  ghost function Entries(reqs: seq<Request>): (rs: seq<Req>)
    reads reqs, set r | r in reqs :: r.crawlLog
    ensures |rs| == |reqs| && forall i :: 0 <= i < |rs| ==> rs[i] == Entry(reqs[i])
  {
    if reqs == [] then [] else Entries(reqs[..|reqs| - 1]) + [Entry(reqs[|reqs| - 1])]
  }

  class RequestRegistry {
    var requests: seq<Request>
    var rootRequest: Request?

    ghost function Logs(): set<CrawlLog?>
      reads this`requests, requests`crawlLog
    {
      set r | r in requests :: r.crawlLog
    }

    ghost function View(): (rs: seq<Req>)
      reads this`requests, requests, Logs()
      ensures |rs| == |requests| && forall i :: 0 <= i < |rs| ==> rs[i] == Entry(requests[i])
    {
      Entries(requests)
    }

    /** Requests and crawl logs are never shared, and a parent link that is set is the right one. */
    ghost predicate Valid()
      reads this`requests, requests, Logs()
    {
      && Unshared()
      && (forall i {:trigger requests[i].redirectParent} :: 0 <= i < |requests| && requests[i].redirectParent != null
                      ==> requests[i].redirectParent == ParentOf(View(), i))
    }

    ghost function ParentOf(rs: seq<Req>, i: nat): Request?
      requires i < |rs| == |requests|
      reads this`requests
    {
      if Parent(rs, i) < 0 then null else requests[Parent(rs, i)]
    }

    constructor ()
      ensures Valid() && requests == []
    {
      requests, rootRequest := [], null;
    }

    method AddRequest(req: Request)
      requires Valid() && req !in requests
      requires req.crawlLog == null && req.redirectParent == null
      modifies this`requests
      ensures Valid() && requests == old(requests) + [req]
    {
      ghost var rs := View();
      requests := requests + [req];
      forall i, j | 0 <= i < j < |requests| ensures Apart(requests, i, j) {
        assert j < |rs| ==> old(Apart(requests, i, j));
      }
      forall i | 0 <= i < |rs| && requests[i].redirectParent != null
        ensures requests[i].redirectParent == ParentOf(View(), i)
      {
        ParentPrefix(rs, View(), i);
      }
    }

    /** A paused request of the browser (eventlisteners.go:128-142). */
    method RequestPaused(url: string, requestId: string, networkId: string, referrer: string) returns (req: Request)
      requires Valid()
      modifies this`requests
      ensures Valid() && requests == old(requests) + [req] && fresh(req)
      ensures req.url == url && req.requestId == requestId && req.networkId == networkId && req.referrer == referrer
      ensures req.initiator == "" && req.crawlLog == null && !req.gotNew && !req.gotComplete && !req.fromCache
    {
      req := new Request(url, requestId, networkId, referrer);
      AddRequest(req);
    }

    /**
     The browser says what started a request (eventlisteners.go:42-46): the first request with the
     NetworkId has that initiator then, and no other request is changed, so a redirect
     never gets one of its own.
     */
    method RequestWillBeSent(networkId: string, initiator: string)
      requires Valid()
      modifies requests`initiator
      ensures Valid()
      ensures forall i :: 0 <= i < |requests| ==>
                requests[i].initiator == if FirstWith(networkId, i) then initiator else old(requests[i].initiator)
    {
      var req := GetByNetworkId(networkId);
      if req != null {
        SetInitiator(req, initiator);
      }
    }

    /** Line 45. */
    method SetInitiator(req: Request, initiator: string)
      requires Valid() && req in requests
      modifies req`initiator
      ensures Valid() && req.initiator == initiator
    {
      ghost var rs := View();
      req.initiator := initiator;
      forall i | 0 <= i < |requests| && requests[i].redirectParent != null
        ensures requests[i].redirectParent == ParentOf(View(), i)
      {
        SameIds(rs, View(), i);
      }
    }

    /** Request `i` is the first with the NetworkId. */
    ghost predicate FirstWith(networkId: string, i: nat)
      requires i < |requests|
      reads this`requests
    {
      requests[i].networkId == networkId && forall j :: 0 <= j < i ==> requests[j].networkId != networkId
    }

    method GetByNetworkId(id: string) returns (r: Request?)
      ensures r == null ==> forall x :: x in requests ==> x.networkId != id
      ensures r != null ==> exists k :: 0 <= k < |requests| && r == requests[k] && r.networkId == id
                                        && forall j :: 0 <= j < k ==> requests[j].networkId != id
    {
      for k := 0 to |requests|
        invariant forall j :: 0 <= j < k ==> requests[j].networkId != id
      {
        if requests[k].networkId == id {
          return requests[k];
        }
      }
      return null;
    }

    method GetByRequestId(id: string) returns (r: Request?)
      ensures r == null ==> forall x :: x in requests ==> x.requestId != id
      ensures r != null ==> exists k :: 0 <= k < |requests| && r == requests[k] && r.requestId == id
                                        && forall j :: 0 <= j < k ==> requests[j].requestId != id
    {
      for k := 0 to |requests|
        invariant forall j :: 0 <= j < k ==> requests[j].requestId != id
      {
        if requests[k].requestId == id {
          return requests[k];
        }
      }
      return null;
    }

    method GetByUrl(url: string, onlyNew: bool) returns (r: Request?)
      ensures r == null ==> forall x :: x in requests ==> x.url != url || (onlyNew && x.gotNew)
      ensures r != null ==> exists k :: 0 <= k < |requests| && r == requests[k]
                                        && r.url == url && (!onlyNew || !r.gotNew)
                                        && forall j :: 0 <= j < k ==> requests[j].url != url || (onlyNew && requests[j].gotNew)
    {
      for k := 0 to |requests|
        invariant forall j :: 0 <= j < k ==> requests[j].url != url || (onlyNew && requests[j].gotNew)
      {
        if requests[k].url == url {
          if !onlyNew || !requests[k].gotNew {
            return requests[k];
          }
        }
      }
      return null;
    }

    method MatchCrawlLogs() returns (b: bool)
      ensures b <==> forall x :: x in requests ==> x.crawlLog != null
    {
      var unresolved := 0;
      for k := 0 to |requests|
        invariant unresolved >= 0
        invariant unresolved == 0 <==> forall j :: 0 <= j < k ==> requests[j].crawlLog != null
      {
        if requests[k].crawlLog == null {
          unresolved := unresolved + 1;
        }
      }
      return unresolved == 0;
    }

    /**
     One pass with two maps. On an empty registry the source indexes out of range, and the
     fetch recovers from the panic; nothing has changed then.
     */
    method FinalizeResponses(seedPath: string) returns (panicked: bool)
      requires Valid()
      modifies this`rootRequest, requests`redirectParent, Logs()
      ensures Valid() && panicked == (requests == [])
      ensures !panicked ==> rootRequest == requests[Root(old(View()))]
      ensures !panicked ==> View() == Finalized(old(View()), seedPath)
      ensures !panicked ==> EachPathSays(old(View()), seedPath)
      ensures forall i {:trigger requests[i].redirectParent} :: 0 <= i < |requests|
                ==> requests[i].redirectParent == ParentOf(old(View()), i)
      ensures forall r :: r in requests && r.crawlLog != null ==> r.crawlLog.referrer == r.referrer
    {
      if |requests| == 0 {
        return true;
      }
      ghost var rs := View();
      rootRequest := requests[0];
      assert forall i :: 0 <= i < |rs| ==> SameRequest(requests[i], rs[i]);
      Start(rs, seedPath);
      Pass(rs, seedPath);
      WrapUp(rs, seedPath);
      EveryPathSays(rs, seedPath);
      return false;
    }

    lemma WrapUp(rs: seq<Req>, seedPath: string)
      requires |rs| == |requests| && Unshared() && Progress(rs, seedPath, |rs|)
      requires forall i :: 0 <= i < |rs| ==> SameRequest(requests[i], rs[i])
      ensures Valid() && View() == Finalized(rs, seedPath)
      ensures forall i {:trigger requests[i].redirectParent} :: 0 <= i < |requests|
                ==> requests[i].redirectParent == ParentOf(rs, i)
      ensures forall r :: r in requests && r.crawlLog != null ==> r.crawlLog.referrer == r.referrer
    {
      forall i | 0 <= i < |rs|
        ensures requests[i].redirectParent == ParentOf(rs, i)
        ensures requests[i].crawlLog != null ==> requests[i].crawlLog.referrer == requests[i].referrer
      {
        assert Done(requests[i], rs, seedPath, i);
      }
      ViewIsFinal(rs, seedPath);
      assert Ids(View()) == Ids(rs);
      forall i | 0 <= i < |requests| && requests[i].redirectParent != null
        ensures requests[i].redirectParent == ParentOf(View(), i)
      {
        assert requests[i].redirectParent == ParentOf(rs, i);
      }
    }

    ghost predicate EachPathSays(rs: seq<Req>, seedPath: string)
      requires |rs| == |requests|
      reads this`requests, requests, Logs()
    {
      forall i :: 0 <= i < |requests| && requests[i].crawlLog != null ==> PathSays(rs, View(), seedPath, i)
    }

    lemma {:induction false} EveryPathSays(rs: seq<Req>, seedPath: string)
      requires |rs| == |requests| && View() == Finalized(rs, seedPath)
      ensures EachPathSays(rs, seedPath)
    {
      forall i | 0 <= i < |requests| && requests[i].crawlLog != null ensures PathSays(rs, View(), seedPath, i) {
        assert View()[i] == Entry(requests[i]);
        FinalizedPathSays(rs, seedPath, i);
      }
    }

    lemma ViewIsFinal(rs: seq<Req>, seedPath: string)
      requires |rs| == |requests| && Progress(rs, seedPath, |rs|)
      requires forall i :: 0 <= i < |rs| ==> SameRequest(requests[i], rs[i])
      ensures View() == Finalized(rs, seedPath)
    {
      forall i | 0 <= i < |rs| ensures View()[i] == Finalized(rs, seedPath)[i] {
        assert Done(requests[i], rs, seedPath, i);
      }
    }

    /** The parts of a request that never change. */
    static ghost predicate SameRequest(r: Request, e: Req) {
      r.url == e.url && r.networkId == e.networkId && r.referrer == e.referrer && (!e.hasLog ==> e.oldPath == "")
    }

    ghost predicate Unshared()
      reads this`requests, requests`crawlLog
    {
      && Distinct(requests)
      && forall i, j {:trigger Apart(requests, i, j)} :: 0 <= i < j < |requests| ==> Apart(requests, i, j)
    }

    /** Lines 143, 144 and 146 to 189. */
    method Pass(ghost rs: seq<Req>, seedPath: string)
      requires |rs| == |requests| && requests != [] && PassInv(rs, map[], map[], seedPath, 0)
      modifies this`rootRequest, requests`redirectParent, Logs()
      ensures Unshared() && rootRequest == requests[Root(rs)]
      ensures Progress(rs, seedPath, |rs|)
    {
      var urls: map<string, Request> := map[];
      var ids: map<string, Request> := map[];
      for idx := 0 to |requests|
        invariant PassInv(rs, urls, ids, seedPath, idx)
      {
        LogIsListed(idx);
        urls, ids := Iterate(rs, requests[idx], idx, urls, ids, seedPath);
      }
    }

    /** What holds when the loop of line 146 has handled `idx` requests. */
    ghost predicate PassInv(rs: seq<Req>, urls: map<string, Request>, ids: map<string, Request>, seedPath: string, idx: nat)
      requires idx <= |rs| == |requests| && requests != []
      reads this`requests, this`rootRequest, requests, Logs()
    {
      && Unshared()
      && Holds(urls, requests, Urls(rs), idx) && Holds(ids, requests, Ids(rs), idx)
      && RootSoFar(rs, idx) && Progress(rs, seedPath, idx)
    }

    lemma LogIsListed(i: nat)
      requires i < |requests|
      ensures requests[i].crawlLog in Logs()
    {
      assert requests[i] in requests;
    }

    lemma Start(rs: seq<Req>, seedPath: string)
      requires Valid() && requests != [] && rs == View() && rootRequest == requests[0]
      ensures PassInv(rs, map[], map[], seedPath, 0)
    {
      forall j | 0 <= j < |requests| ensures Untouched(requests[j], rs, j) {
        assert requests[j].redirectParent != null ==> requests[j].redirectParent == ParentOf(rs, j);
      }
    }

    method Iterate(ghost rs: seq<Req>, rr: Request, idx: nat, urls: map<string, Request>, ids: map<string, Request>,
                   seedPath: string) returns (urls': map<string, Request>, ids': map<string, Request>)
      requires idx < |rs| == |requests| && rr == requests[idx] && PassInv(rs, urls, ids, seedPath, idx)
      modifies this`rootRequest, rr`redirectParent, rr.crawlLog
      ensures PassInv(rs, urls', ids', seedPath, idx + 1)
    {
      assert Untouched(rr, rs, idx);
      Needed(rs, seedPath, idx);
      urls', ids' := VisitAfter(rs, rr, idx, urls, ids, seedPath);
      forall j | idx < j < |requests| ensures Untouched(requests[j], rs, j) {
        assert old(Untouched(requests[j], rs, j) && Apart(requests, idx, j));
      }
      Advance(rs, seedPath, idx);
    }

    /** Visiting one request leaves the ones before it as they were. */
    method VisitAfter(ghost rs: seq<Req>, rr: Request, idx: nat, urls: map<string, Request>, ids: map<string, Request>,
                      seedPath: string) returns (urls': map<string, Request>, ids': map<string, Request>)
      requires idx < |rs| == |requests| && rr == requests[idx] && Distinct(requests) && RootSoFar(rs, idx)
      requires Holds(urls, requests, Urls(rs), idx) && Holds(ids, requests, Ids(rs), idx)
      requires Untouched(rr, rs, idx) && NeededFor(rs, seedPath, idx)
      requires forall j {:trigger Done(requests[j], rs, seedPath, j)} :: 0 <= j < idx
                 ==> Done(requests[j], rs, seedPath, j) && Apart(requests, j, idx)
      modifies this`rootRequest, rr`redirectParent, rr.crawlLog
      ensures Holds(urls', requests, Urls(rs), idx + 1) && Holds(ids', requests, Ids(rs), idx + 1)
      ensures RootSoFar(rs, idx + 1) && Done(rr, rs, seedPath, idx)
      ensures forall j {:trigger Done(requests[j], rs, seedPath, j)} :: 0 <= j < idx ==> Done(requests[j], rs, seedPath, j)
    {
      urls', ids' := Visit(rs, rr, idx, urls, ids, seedPath);
      forall j | 0 <= j < idx ensures Done(requests[j], rs, seedPath, j) {
        assert old(Done(requests[j], rs, seedPath, j) && Apart(requests, j, idx));
      }
    }

    lemma Advance(rs: seq<Req>, seedPath: string, idx: nat)
      requires idx < |rs| == |requests| && Done(requests[idx], rs, seedPath, idx)
      requires forall j {:trigger Done(requests[j], rs, seedPath, j)} :: 0 <= j < idx ==> Done(requests[j], rs, seedPath, j)
      requires forall j {:trigger Untouched(requests[j], rs, j)} :: idx < j < |requests| ==> Untouched(requests[j], rs, j)
      ensures Progress(rs, seedPath, idx + 1)
    {}

    lemma Needed(rs: seq<Req>, seedPath: string, idx: nat)
      requires idx < |rs| == |requests| && Unshared() && Progress(rs, seedPath, idx)
      ensures NeededFor(rs, seedPath, idx)
    {
      var p, q := Parent(rs, idx), Referrer(rs, idx);
      if p >= 0 {
        assert Done(requests[p], rs, seedPath, p) && Apart(requests, p, idx);
      }
      if 0 <= q < idx {
        assert Done(requests[q], rs, seedPath, q) && Apart(requests, q, idx);
      }
    }

    ghost predicate Progress(rs: seq<Req>, seedPath: string, idx: nat)
      requires idx <= |rs| == |requests|
      reads this`requests, requests, Logs()
    {
      && (forall j {:trigger Done(requests[j], rs, seedPath, j)} :: 0 <= j < idx ==> Done(requests[j], rs, seedPath, j))
      && (forall j {:trigger Untouched(requests[j], rs, j)} :: idx <= j < |requests| ==> Untouched(requests[j], rs, j))
    }

    /** The requests whose path `idx` may continue are finished. */
    ghost predicate NeededFor(rs: seq<Req>, seedPath: string, idx: nat)
      requires idx < |rs| == |requests|
      reads this`requests, requests, Logs()
    {
      var p, q := Parent(rs, idx), Referrer(rs, idx);
      && (p >= 0 ==> Done(requests[p], rs, seedPath, p) && Apart(requests, p, idx))
      && (0 <= q < idx ==> Done(requests[q], rs, seedPath, q) && Apart(requests, q, idx))
    }

    /** Lines 147 to 188. */
    method Visit(ghost rs: seq<Req>, rr: Request, idx: nat, urls: map<string, Request>, ids: map<string, Request>,
                 seedPath: string) returns (urls': map<string, Request>, ids': map<string, Request>)
      requires idx < |rs| == |requests| && rr == requests[idx] && Distinct(requests) && RootSoFar(rs, idx)
      requires Holds(urls, requests, Urls(rs), idx) && Holds(ids, requests, Ids(rs), idx)
      requires Untouched(rr, rs, idx) && NeededFor(rs, seedPath, idx)
      modifies this`rootRequest, rr`redirectParent, rr.crawlLog
      ensures Holds(urls', requests, Urls(rs), idx + 1) && Holds(ids', requests, Ids(rs), idx + 1)
      ensures RootSoFar(rs, idx + 1) && Done(rr, rs, seedPath, idx)
    {
      urls' := urls[rr.url := rr];
      HoldsExtends(urls, requests, Urls(rs), idx);
      LinkRedirect(rs, rr, idx, ids);
      ids' := ids[rr.networkId := rr];
      HoldsExtends(ids, requests, Ids(rs), idx);
      if rr.crawlLog != null {
        Describe(rs, rr, idx, urls', seedPath);
      }
    }

    ghost predicate RootSoFar(rs: seq<Req>, idx: nat)
      requires idx <= |rs| == |requests| && requests != []
      reads this`requests, this`rootRequest
    {
      if idx == 0 then rootRequest == requests[0]
      else Last(Ids(rs), idx, rs[0].networkId) >= 0 && rootRequest == requests[Last(Ids(rs), idx, rs[0].networkId)]
    }

    /** Request `j` of the list is as the pass found it. */
    ghost predicate Untouched(r: Request, rs: seq<Req>, j: nat)
      requires j < |rs| == |requests|
      reads this`requests, r, r.crawlLog
    {
      && Entry(r) == rs[j]
      && (r.redirectParent != null ==> r.redirectParent == ParentOf(rs, j))
    }

    /** Lines 148 to 153. */
    method LinkRedirect(ghost rs: seq<Req>, rr: Request, idx: nat, ids: map<string, Request>)
      requires idx < |requests| == |rs| && rr == requests[idx] && rs[idx].networkId == rr.networkId
      requires Holds(ids, requests, Ids(rs), idx)
      requires Distinct(requests) && RootSoFar(rs, idx)
      modifies this`rootRequest, rr`redirectParent
      ensures RootSoFar(rs, idx + 1)
      ensures rr.redirectParent ==
              if Parent(rs, idx) < 0 then old(rr.redirectParent) else requests[Parent(rs, idx)]
    {
      if rr.networkId in ids {
        var p := ids[rr.networkId];
        rr.redirectParent := p;
        if p == rootRequest {
          rootRequest := rr;
        }
      }
    }

    /** Lines 157 to 178. */
    method Describe(ghost rs: seq<Req>, rr: Request, idx: nat, urls: map<string, Request>, seedPath: string)
      requires idx < |requests| == |rs| && rr == requests[idx] && rs[idx] == Entry(rr) && rs[idx].hasLog
      requires Holds(urls, requests, Urls(rs), idx + 1)
      requires rr.redirectParent == ParentOf(rs, idx)
      requires NeededFor(rs, seedPath, idx)
      modifies rr.crawlLog
      ensures rr.crawlLog.referrer == rr.referrer
      ensures rr.crawlLog.discoveryPath == Path(rs, seedPath, idx)
    {
      rr.crawlLog.referrer := rr.referrer;
      var referrerRequest := if rr.referrer in urls then urls[rr.referrer] else null;
      var discoveryType :=
        if idx == 0 then seedPath
        else if rr.initiator == "script" then "X"
        else if rr.redirectParent != null then "R"
        else "E";
      assert discoveryType == Label(rs, seedPath, idx);
      assert referrerRequest == if Referrer(rs, idx) < 0 then null else requests[Referrer(rs, idx)];
      if rr.redirectParent != null && rr.redirectParent.crawlLog != null {
        rr.crawlLog.discoveryPath := rr.redirectParent.crawlLog.discoveryPath + discoveryType;
      } else if referrerRequest != null && referrerRequest.crawlLog != null {
        rr.crawlLog.discoveryPath := referrerRequest.crawlLog.discoveryPath + discoveryType;
      } else {
        rr.crawlLog.discoveryPath := "" + discoveryType;
      }
    }

    /** Request `j` of the list carries its final links and texts. */
    ghost predicate Done(r: Request, rs: seq<Req>, seedPath: string, j: nat)
      requires j < |rs| == |requests|
      reads this`requests, r, r.crawlLog
    {
      && r.redirectParent == ParentOf(rs, j)
      && (r.crawlLog != null <==> rs[j].hasLog)
      && r.initiator == rs[j].initiator
      && (rs[j].hasLog ==> r.crawlLog.referrer == r.referrer && r.crawlLog.discoveryPath == Path(rs, seedPath, j))
    }
  }

  ghost predicate Distinct(rs: seq<Request>) { forall i, j :: 0 <= i < j < |rs| ==> rs[i] != rs[j] }

  /** Two requests and their crawl logs are different objects. */
  ghost predicate Apart(rs: seq<Request>, i: nat, j: nat)
    requires i < |rs| && j < |rs|
    reads rs`crawlLog
  {
    && rs[i] != rs[j]
    && (rs[i].crawlLog != null ==> rs[i].crawlLog != rs[j].crawlLog)
  }

  /** `m` maps every key to the last of the first `n` requests that has it. */
  ghost predicate Holds(m: map<string, Request>, requests: seq<Request>, keys: seq<string>, n: nat)
    requires n <= |keys| == |requests|
  {
    && (forall k {:trigger k in m} :: k in m <==> Last(keys, n, k) >= 0)
    && (forall k {:trigger m[k]} :: k in m ==> m[k] == requests[Last(keys, n, k)])
  }

  lemma HoldsExtends(m: map<string, Request>, requests: seq<Request>, keys: seq<string>, n: nat)
    requires n < |keys| == |requests| && Holds(m, requests, keys, n)
    ensures Holds(m[keys[n] := requests[n]], requests, keys, n + 1)
  {}
}
