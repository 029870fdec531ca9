/**
 What becomes of the pages that the controller loop obtains: each is handed to a worker,
 which fetches it, reports it and then releases its session. A page is named by its index.
 */
module PageAccounts {
  import opened GoBasics
  import opened SessionPool

  datatype Stage =
    | Fetching
    | Fetched                        // browsercontroller.go:120 is next
    | Reported                       // PageCompleted has been called; the deferred Release is under way
    | Done                           // registry.go:85 has been executed for the session

  datatype Job = Job(page: nat, stage: Stage)

  datatype Accounts = Accounts(
    obtained: nat,                   // pages got so far
    pending: Option<nat>,            // a page the loop has and no worker yet
    jobs: map<nat, Job>,             // the workers
    reported: seq<nat>,              // the calls of PageCompleted
    released: seq<nat>)              // pages whose session was marked done by its worker

  datatype Entry =
    | Obtain
    | Start(w: nat)
    | FetchEnds(w: nat)
    | Report(w: nat)
    | Release(w: nat)
    | Finish(w: nat)

  predicate In(a: Accounts, w: nat, stage: Stage) { w in a.jobs && a.jobs[w].stage == stage }

  predicate Fits(a: Accounts, e: Entry) {
    match e
    case Obtain => a.pending.None?
    case Start(w) => a.pending.Some? && w !in a.jobs
    case FetchEnds(w) => In(a, w, Fetching)
    case Report(w) => In(a, w, Fetched)
    case Release(w) => In(a, w, Reported)
    case Finish(w) => In(a, w, Done)
  }

  function Book(a: Accounts, e: Entry): Accounts {
    if !Fits(a, e) then a else
    match e
    case Obtain => a.(pending := Some(a.obtained), obtained := a.obtained + 1)
    case Start(w) => a.(pending := None, jobs := a.jobs[w := Job(a.pending.value, Fetching)])
    case FetchEnds(w) => a.(jobs := a.jobs[w := a.jobs[w].(stage := Fetched)])
    case Report(w) =>
      a.(jobs := a.jobs[w := a.jobs[w].(stage := Reported)], reported := a.reported + [a.jobs[w].page])
    case Release(w) =>
      a.(jobs := a.jobs[w := a.jobs[w].(stage := Done)], released := a.released + [a.jobs[w].page])
    case Finish(w) => a.(jobs := a.jobs - {w})
  }

  ghost predicate Has(a: Accounts, w: nat, p: nat) { w in a.jobs && a.jobs[w].page == p }

  /** Each page obtained is with the loop, with one worker, or reported; and once only. */
  ghost predicate Pages(a: Accounts) {
    && NoDup(a.reported)
    && (forall p :: p in a.reported ==> p < a.obtained)
    && (forall w :: w in a.jobs ==> a.jobs[w].page < a.obtained)
    && (forall w :: w in a.jobs ==> (a.jobs[w].page in a.reported <==> a.jobs[w].stage.Reported? || a.jobs[w].stage.Done?))
    && (forall v, w :: v in a.jobs && w in a.jobs && a.jobs[v].page == a.jobs[w].page ==> v == w)
    && (a.pending.Some? ==> a.pending.value < a.obtained && a.pending.value !in a.reported
                            && forall w :: !Has(a, w, a.pending.value))
    && (forall p: nat :: p < a.obtained ==> p in a.reported || a.pending == Some(p) || exists w :: Has(a, w, p))
  }

  /** A session is marked done after its page was reported, and once. */
  ghost predicate Releases(a: Accounts) {
    && NoDup(a.released)
    && (forall p :: p in a.released ==> p in a.reported)
    && (forall w :: w in a.jobs ==> (a.jobs[w].page in a.released <==> a.jobs[w].stage.Done?))
    && (forall p :: p in a.reported ==> p in a.released || exists w :: Has(a, w, p))
  }

  lemma OtherJobs(a: Accounts, e: Entry)
    ensures e.Obtain? || e.FetchEnds? || e.Report? || e.Release? ==> forall w, p :: Has(Book(a, e), w, p) <==> Has(a, w, p)
    ensures e.Start? || e.Finish? ==> forall w, p :: w != e.w ==> (Has(Book(a, e), w, p) <==> Has(a, w, p))
  {}

  lemma PagesStep(a: Accounts, e: Entry)
    requires Pages(a)
    ensures Pages(Book(a, e))
  {
    if Fits(a, e) {
      match e
      case Start(w) => PagesStart(a, w);
      case Report(w) => PagesReport(a, w);
      case Finish(w) => PagesFinish(a, w);
      case _ => PagesOther(a, e);
    }
  }

  lemma PagesOther(a: Accounts, e: Entry)
    requires Pages(a) && Fits(a, e) && (e.Obtain? || e.FetchEnds? || e.Release?)
    ensures Pages(Book(a, e))
  {
    OtherJobs(a, e);
  }

  lemma PagesStart(a: Accounts, w: nat)
    requires Pages(a) && Fits(a, Start(w))
    ensures Pages(Book(a, Start(w)))
  {
    var b := Book(a, Start(w));
    OtherJobs(a, Start(w));
    assert Has(b, w, a.pending.value);
    forall v | v in a.jobs ensures a.jobs[v].page != a.pending.value && b.jobs[v] == a.jobs[v] {
      assert !Has(a, v, a.pending.value);
    }
  }

  lemma PagesReport(a: Accounts, w: nat)
    requires Pages(a) && Fits(a, Report(w))
    ensures Pages(Book(a, Report(w)))
  {
    var b := Book(a, Report(w));
    OtherJobs(a, Report(w));
    assert Has(a, w, a.jobs[w].page);
    assert forall p :: p in b.reported <==> p in a.reported || p == a.jobs[w].page;
  }

  lemma PagesFinish(a: Accounts, w: nat)
    requires Pages(a) && Fits(a, Finish(w))
    ensures Pages(Book(a, Finish(w)))
  {
    OtherJobs(a, Finish(w));
    assert forall p :: Has(a, w, p) ==> p in a.reported;
  }

  lemma ReleasesStep(a: Accounts, e: Entry)
    requires Pages(a) && Releases(a)
    ensures Releases(Book(a, e))
  {
    var b := Book(a, e);
    OtherJobs(a, e);
    if Fits(a, e) {
      if e.Start? {
        assert forall w, p :: Has(a, w, p) ==> Has(b, w, p);
        assert a.pending.value !in a.released;
      } else if e.Report? {
        assert Has(b, e.w, a.jobs[e.w].page);
      } else if e.Finish? {
        assert a.jobs[e.w].page in b.released;
        assert forall p :: Has(a, e.w, p) ==> p in b.released;
      }
    }
  }
}
