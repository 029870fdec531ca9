/**
 The last part of Session.Fetch (session/session.go:356-455): the responses are finalized in
 place, and then collected into what is written and reported about the page.
 */
module PageReports {
  import opened GoBasics
  import opened Discovery
  import opened Requests

  datatype Resource = Resource(uri: string, fromCache: bool, path: string, warcId: string, referrer: string)

  datatype QueuedUri = QueuedUri(uri: string, path: string, referrer: string)

  datatype Outcome =
    | Reported(uriCount: int, bytesDownloaded: int, outlinks: seq<QueuedUri>)
    | MissingInitialRequest
    | Panicked                       // Fetch recovers from it

  ghost predicate Increasing(at: seq<nat>) { forall k, l :: 0 <= k < l < |at| ==> at[k] < at[l] }

  /** `logs` are the crawl logs that have a WARC id, those of the first `n` requests, in order. */
  ghost predicate Picked(reqs: seq<Request>, n: nat, at: seq<nat>, logs: seq<CrawlLog>)
    requires n <= |reqs|
    reads reqs
  {
    && Increasing(at) && |logs| == |at|
    && (forall i: nat :: i in at <==> i < n && reqs[i].crawlLog != null && reqs[i].crawlLog.warcId != "")
    && (forall k :: 0 <= k < |at| ==> at[k] < n && reqs[at[k]].crawlLog == logs[k])
  }

  ghost predicate Describes(x: Resource, r: Request)
    reads r, r.crawlLog
  {
    && r.crawlLog != null && x.uri == r.url && x.fromCache == r.fromCache && x.referrer == r.referrer
    && x.path == r.crawlLog.discoveryPath && x.warcId == r.crawlLog.warcId
  }

  /** `resources` describe those of the first `n` requests that have a crawl log, in order. */
  ghost predicate Described(reqs: seq<Request>, n: nat, at: seq<nat>, resources: seq<Resource>)
    requires n <= |reqs|
    reads reqs, set r | r in reqs :: r.crawlLog
  {
    && Increasing(at) && |resources| == |at|
    && (forall i: nat :: i in at <==> i < n && reqs[i].crawlLog != null)
    && (forall k :: 0 <= k < |at| ==> at[k] < n && Describes(resources[k], reqs[at[k]]))
  }

  /** What is written and what is listed of the requests in a registry. */
  ghost predicate CollectedAs(reg: RequestRegistry, written: seq<nat>, logs: seq<CrawlLog>, listed: seq<nat>, resources: seq<Resource>)
    reads reg`requests, reg.requests, reg.Logs()
  {
    Picked(reg.requests, |reg.requests|, written, logs) && Described(reg.requests, |reg.requests|, listed, resources)
  }

  function TotalSize(logs: seq<CrawlLog>): int {
    if logs == [] then 0 else TotalSize(logs[..|logs| - 1]) + logs[|logs| - 1].size
  }

  lemma TotalSizeExtends(logs: seq<CrawlLog>, l: CrawlLog)
    ensures TotalSize(logs + [l]) == TotalSize(logs) + l.size
  {
    assert (logs + [l])[..|logs|] == logs;
  }

  lemma CountExtends(c: int, n: nat)
    requires c == Int32(n)
    ensures Int32(c + 1) == Int32(n + 1)
  {}

  lemma PickedExtends(reqs: seq<Request>, n: nat, at: seq<nat>, logs: seq<CrawlLog>)
    requires n < |reqs| && Picked(reqs, n, at, logs)
    ensures if reqs[n].crawlLog != null && reqs[n].crawlLog.warcId != "" then Picked(reqs, n + 1, at + [n], logs + [reqs[n].crawlLog])
            else Picked(reqs, n + 1, at, logs)
  {
    forall i: nat ensures i in at + [n] <==> i in at || i == n {}
  }

  lemma DescribedExtends(reqs: seq<Request>, n: nat, at: seq<nat>, resources: seq<Resource>, x: Resource)
    requires n < |reqs| && Described(reqs, n, at, resources)
    ensures Describes(x, reqs[n]) ==> Described(reqs, n + 1, at + [n], resources + [x])
    ensures reqs[n].crawlLog == null ==> Described(reqs, n + 1, at, resources)
  {
    forall i: nat ensures i in at + [n] <==> i in at || i == n {}
  }

  /** Lines 370 to 402. */
  method Collect(reg: RequestRegistry)
    returns (crawlLogs: seq<CrawlLog>, count: int, bytes: int, resources: seq<Resource>,
             ghost written: seq<nat>, ghost listed: seq<nat>)
    ensures CollectedAs(reg, written, crawlLogs, listed, resources)
    ensures count == Int32(|crawlLogs|) && bytes == TotalSize(crawlLogs)
  {
    crawlLogs, count, bytes, resources, written, listed := [], 0, 0, [], [], [];
    for i := 0 to |reg.requests|
      invariant Picked(reg.requests, i, written, crawlLogs)
      invariant count == Int32(|crawlLogs|) && bytes == TotalSize(crawlLogs)
      invariant Described(reg.requests, i, listed, resources)
    {
      var r := reg.requests[i];
      PickedExtends(reg.requests, i, written, crawlLogs);
      if r.crawlLog != null && r.crawlLog.warcId != "" {
        TotalSizeExtends(crawlLogs, r.crawlLog);
        CountExtends(count, |crawlLogs|);
        crawlLogs, written := crawlLogs + [r.crawlLog], written + [i];
        count := Int32(count + 1);
        bytes := bytes + r.crawlLog.size;
      }
      if r.crawlLog != null {
        var x := Resource(r.url, r.fromCache, r.crawlLog.discoveryPath, r.crawlLog.warcId, r.referrer);
        DescribedExtends(reg.requests, i, listed, resources, x);
        resources, listed := resources + [x], listed + [i];
      } else {
        DescribedExtends(reg.requests, i, listed, resources, Resource("", false, "", "", ""));
      }
    }
  }

  /** Lines 434 to 445. */
  method QueueOutlinks(root: Request, outlinks: seq<string>) returns (qUris: seq<QueuedUri>, panicked: bool)
    ensures panicked <==> outlinks != [] && root.crawlLog == null
    ensures !panicked ==> |qUris| == |outlinks| && forall k :: 0 <= k < |outlinks| ==>
              qUris[k] == QueuedUri(outlinks[k], (if root.crawlLog == null then "" else root.crawlLog.discoveryPath) + "L", root.url)
  {
    qUris := [];
    for k := 0 to |outlinks|
      invariant |qUris| == k && (k > 0 ==> root.crawlLog != null)
      invariant forall j :: 0 <= j < k ==>
                  qUris[j] == QueuedUri(outlinks[j], (if root.crawlLog == null then "" else root.crawlLog.discoveryPath) + "L", root.url)
    {
      if root.crawlLog == null {
        return [], true;
      }
      qUris := qUris + [QueuedUri(outlinks[k], root.crawlLog.discoveryPath + "L", root.url)];
    }
    panicked := false;
  }

  /** Lines 409 to 455. */
  method Report(first: Request, root: Request, count: int, bytes: int, outlinks: seq<string>) returns (outcome: Outcome)
    ensures outcome.MissingInitialRequest? <==> first.crawlLog == null
    ensures outcome.Panicked? <==> first.crawlLog != null && outlinks != [] && root.crawlLog == null
    ensures outcome.Reported? ==>
              && outcome.uriCount == count && outcome.bytesDownloaded == bytes && |outcome.outlinks| == |outlinks|
              && forall k :: 0 <= k < |outlinks| ==>
                   (root.crawlLog != null
                    && outcome.outlinks[k] == QueuedUri(outlinks[k], root.crawlLog.discoveryPath + "L", root.url))
  {
    if first.crawlLog == null {
      return MissingInitialRequest;
    }
    var qUris, panicked := QueueOutlinks(root, outlinks);
    outcome := if panicked then Panicked else Reported(count, bytes, qUris);
  }

  /** The resources are exactly the requests with a crawl log, each with the path of the recursive definition. */
  ghost predicate ListedWithPaths(rs: seq<Req>, seedPath: string, listed: seq<nat>, resources: seq<Resource>) {
    && |resources| == |listed|
    && (forall i: nat :: i in listed <==> i < |rs| && rs[i].hasLog)
    && forall k :: 0 <= k < |listed| ==> ListedAt(rs, seedPath, listed[k], resources[k])
  }

  ghost predicate ListedAt(rs: seq<Req>, seedPath: string, i: nat, x: Resource) {
    i < |rs| && rs[i].hasLog && x.uri == rs[i].url && x.path == Path(rs, seedPath, i)
  }

  /** When the fetch fails, when it panics, and what it queues otherwise. */
  ghost predicate EndsAs(rs: seq<Req>, seedPath: string, outlinks: seq<string>, outcome: Outcome)
    requires rs != []
  {
    && (outcome.MissingInitialRequest? <==> !rs[0].hasLog)
    && (outcome.Panicked? <==> rs[0].hasLog && outlinks != [] && !rs[Root(rs)].hasLog)
    && (outcome.Reported? ==> QueuedFrom(rs, seedPath, outlinks, outcome.outlinks))
  }

  /** Every resource listed carries its discovery path. */
  lemma PathsAreListed(reg: RequestRegistry, rs: seq<Req>, seedPath: string, listed: seq<nat>, resources: seq<Resource>)
    requires reg.View() == Finalized(rs, seedPath) && Described(reg.requests, |reg.requests|, listed, resources)
    ensures |rs| == |reg.requests|
    ensures ListedWithPaths(rs, seedPath, listed, resources)
  {
    assert forall i :: 0 <= i < |rs| ==> reg.View()[i] == Entry(reg.requests[i]);
    forall i: nat | i < |rs| ensures rs[i].hasLog <==> reg.requests[i].crawlLog != null {
      assert reg.View()[i] == Entry(reg.requests[i]);
    }
    forall k | 0 <= k < |listed| ensures ListedAt(rs, seedPath, listed[k], resources[k]) {
      assert reg.View()[listed[k]] == Entry(reg.requests[listed[k]]);
    }
  }

  /** The outlinks of a page are queued from the page at the end of its redirects. */
  ghost predicate QueuedFrom(rs: seq<Req>, seedPath: string, outlinks: seq<string>, queued: seq<QueuedUri>)
    requires rs != []
  {
    && |queued| == |outlinks|
    && forall k :: 0 <= k < |outlinks| ==>
         (rs[Root(rs)].hasLog && queued[k] == QueuedUri(outlinks[k], Path(rs, seedPath, Root(rs)) + "L", rs[Root(rs)].url))
  }

  /**
   Lines 356 to 455. The outlinks are what the page's scripts have found. What is written,
   listed and queued carries the discovery paths of the recursive definition; the fetch
   panics if and only if there is no request, or there are outlinks and the first request
   has a crawl log but the page at the end of its redirects has none.
   */
  method Finish(reg: RequestRegistry, seedPath: string, outlinks: seq<string>)
    returns (crawlLogs: seq<CrawlLog>, resources: seq<Resource>, outcome: Outcome, ghost written: seq<nat>, ghost listed: seq<nat>)
    requires reg.Valid()
    modifies reg`rootRequest, reg.requests`redirectParent, reg.Logs()
    ensures reg.requests == old(reg.requests)
    ensures reg.requests == [] ==> outcome.Panicked?
    ensures reg.requests != [] ==> EndsAs(old(reg.View()), seedPath, outlinks, outcome)
    ensures outcome.Reported? ==> outcome.uriCount == Int32(|crawlLogs|) && outcome.bytesDownloaded == TotalSize(crawlLogs)
    ensures reg.requests != [] ==>
              && CollectedAs(reg, written, crawlLogs, listed, resources)
              && ListedWithPaths(old(reg.View()), seedPath, listed, resources)
  {
    ghost var rs := reg.View();
    crawlLogs, resources, written, listed := [], [], [], [];
    var panicked := reg.FinalizeResponses(seedPath);
    if panicked {
      return crawlLogs, resources, Panicked, written, listed;
    }
    crawlLogs, resources, outcome, written, listed := Conclude(reg, rs, seedPath, outlinks);
  }

  /** Lines 370 to 455, on finalized responses. */
  method Conclude(reg: RequestRegistry, ghost rs: seq<Req>, seedPath: string, outlinks: seq<string>)
    returns (crawlLogs: seq<CrawlLog>, resources: seq<Resource>, outcome: Outcome, ghost written: seq<nat>, ghost listed: seq<nat>)
    requires rs != [] && |rs| == |reg.requests| && reg.View() == Finalized(rs, seedPath)
    requires reg.rootRequest == reg.requests[Root(rs)]
    ensures EndsAs(rs, seedPath, outlinks, outcome)
    ensures outcome.Reported? ==> outcome.uriCount == Int32(|crawlLogs|) && outcome.bytesDownloaded == TotalSize(crawlLogs)
    ensures CollectedAs(reg, written, crawlLogs, listed, resources)
    ensures ListedWithPaths(rs, seedPath, listed, resources)
  {
    var count, bytes;
    crawlLogs, count, bytes, resources, written, listed := Collect(reg);
    PathsAreListed(reg, rs, seedPath, listed, resources);
    outcome := ReportPage(reg, rs, seedPath, count, bytes, outlinks);
  }

  /** Lines 409 to 455, on finalized responses. */
  method ReportPage(reg: RequestRegistry, ghost rs: seq<Req>, seedPath: string, count: int, bytes: int, outlinks: seq<string>)
    returns (outcome: Outcome)
    requires rs != [] && |rs| == |reg.requests| && reg.View() == Finalized(rs, seedPath)
    requires reg.rootRequest == reg.requests[Root(rs)]
    ensures EndsAs(rs, seedPath, outlinks, outcome)
    ensures outcome.Reported? ==> outcome.uriCount == count && outcome.bytesDownloaded == bytes
  {
    outcome := Report(reg.requests[0], reg.rootRequest, count, bytes, outlinks);
    FirstAndRoot(reg, rs, seedPath);
  }

  lemma FirstAndRoot(reg: RequestRegistry, rs: seq<Req>, seedPath: string)
    requires rs != [] && |rs| == |reg.requests| && reg.View() == Finalized(rs, seedPath)
    ensures reg.requests[0].crawlLog != null <==> rs[0].hasLog
    ensures var r := reg.requests[Root(rs)];
            && r.url == rs[Root(rs)].url && (r.crawlLog != null <==> rs[Root(rs)].hasLog)
            && (r.crawlLog != null ==> r.crawlLog.discoveryPath == Path(rs, seedPath, Root(rs)))
  {
    assert reg.View()[0] == Entry(reg.requests[0]);
    assert reg.View()[Root(rs)] == Entry(reg.requests[Root(rs)]);
  }
}
