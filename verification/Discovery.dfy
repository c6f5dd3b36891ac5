/** The discovery engine: a cache of verified apps, reconciled with the live sockets by each scan
    while the probes of a scan finish in any order. */
module Discovery {
  import opened Text
  import opened Origins
  import opened Listeners
  import Catalogs
  import Sorting

  type App = Catalogs.DiscoveredApp

  datatype ProbeResult = ProbeResult(status: nat, title: Option<string>)

  /** How a probe task ends: with a response, without one, or by panicking. */
  datatype Probe = Answered(result: Option<ProbeResult>) | Panicked

  datatype CachedApp = CachedApp(app: App, lastVerified: nat)

  type Cache = map<Origin, CachedApp>

  /** What a scan works with: the candidates, the clock when it starts, when each probe finishes
      and with what, and which responses count as a real page. */
  datatype Scan = Scan(
    candidates: seq<Candidate>,
    recheck: nat,
    now: nat,
    finish: Origin -> nat,
    probe: Origin -> Probe,
    credible: ProbeResult -> bool)

  function Lookup(m: Cache, o: Origin): Option<CachedApp> {
    if o in m then Some(m[o]) else None
  }

  /** Never verified, or not within the recheck period. */
  predicate Due(e: Option<CachedApp>, s: Scan) {
    e.None? || s.now - e.value.lastVerified >= s.recheck
  }

  /** The app that probing a candidate finds. */
  function ProbedApp(s: Scan, c: Candidate): Option<App> {
    match s.probe(c.origin)
    case Answered(Some(r)) =>
      if s.credible(r) then Some(Catalogs.DiscoveredApp(c.origin, r.title, c.process, c.pid)) else None
    case _ => None
  }

  /** What a finished probe reports when it finds no app. */
  function Failure(s: Scan, c: Candidate): Option<Skipped> {
    match s.probe(c.origin)
    case Answered(Some(r)) =>
      if s.credible(r) then None else Some(Skipped(Authority(c.origin), c.process, NotCredible))
    case Answered(None) => Some(Skipped(Authority(c.origin), c.process, Unreachable))
    case Panicked => None
  }

  /** The cache entry of a candidate after the scan, given the one before. */
  function Settle(e: Option<CachedApp>, s: Scan, c: Candidate): Option<CachedApp> {
    if !Due(e, s) || s.probe(c.origin).Panicked? then e
    else
      match ProbedApp(s, c)
      case Some(app) => Some(CachedApp(app, s.finish(c.origin)))
      case None => None
  }

  function CandidateFor(cs: seq<Candidate>, o: Origin): (r: Option<Candidate>)
    ensures r.Some? ==> r.value in cs && r.value.origin == o
    ensures r.None? ==> forall c :: c in cs ==> c.origin != o
  {
    if cs == [] then None
    else if cs[|cs| - 1].origin == o then Some(cs[|cs| - 1])
    else
      assert cs == cs[..|cs| - 1] + [cs[|cs| - 1]];
      CandidateFor(cs[..|cs| - 1], o)
  }

  lemma CandidateForSelf(cs: seq<Candidate>, c: Candidate)
    requires DistinctOrigins(cs) && c in cs
    ensures CandidateFor(cs, c.origin) == Some(c)
  {
  }

  function SettledAt(before: Cache, s: Scan, o: Origin): Option<CachedApp> {
    match CandidateFor(s.candidates, o)
    case Some(c) => Settle(Lookup(before, o), s, c)
    case None => None
  }

  /** The cache after a scan. No probe order enters into it. */
  function After(before: Cache, s: Scan): Cache {
    map o | o in OriginsOf(s.candidates) && SettledAt(before, s, o).Some? :: SettledAt(before, s, o).value
  }

  lemma AfterAt(before: Cache, s: Scan, o: Origin)
    ensures Lookup(After(before, s), o) == SettledAt(before, s, o)
  {
  }

  /** The probe failures of a list of candidates. */
  function Failures(s: Scan, cs: seq<Candidate>): seq<Skipped> {
    if cs == [] then []
    else
      var r := Failures(s, cs[..|cs| - 1]);
      if Failure(s, cs[|cs| - 1]).Some? then r + [Failure(s, cs[|cs| - 1]).value] else r
  }

  function IsDue(before: Cache, s: Scan): Candidate -> bool {
    (c: Candidate) => Due(Lookup(before, c.origin), s)
  }

  /** The candidates a scan probes. */
  function ToProbe(before: Cache, s: Scan): seq<Candidate> {
    Sorting.Filter(s.candidates, IsDue(before, s))
  }

  ghost predicate KeyedByOrigin(m: Cache) {
    forall o :: o in m ==> m[o].app.origin == o
  }

  /** The filter's skips, then the probe failures in the order they came in. */
  ghost predicate ScanReport(report: seq<Skipped>, skipped: seq<Skipped>, failures: seq<Skipped>) {
    skipped <= report && multiset(report[|skipped|..]) == multiset(failures)
  }

  /** The cache without the entries whose socket is gone. */
  function Retained(before: Cache, s: Scan): Cache {
    map o | o in before && o in OriginsOf(s.candidates) :: before[o]
  }

  lemma ToProbeRetained(before: Cache, s: Scan)
    ensures ToProbe(Retained(before, s), s) == ToProbe(before, s)
    ensures forall c :: c in ToProbe(before, s) ==> Due(Lookup(Retained(before, s), c.origin), s)
  {
    forall c | c in s.candidates
      ensures Lookup(Retained(before, s), c.origin) == Lookup(before, c.origin)
    {
      assert c.origin in OriginsOf(s.candidates);
    }
    Sorting.FilterCongruent(s.candidates, IsDue(Retained(before, s), s), IsDue(before, s));
    forall c | c in ToProbe(before, s)
      ensures c in s.candidates && IsDue(before, s)(c)
    {
      Sorting.FilterMember(s.candidates, IsDue(before, s), c);
    }
  }

  lemma {:induction false} FilterDistinct(cs: seq<Candidate>, p: Candidate -> bool)
    requires DistinctOrigins(cs)
    ensures DistinctOrigins(Sorting.Filter(cs, p))
  {
    if cs != [] {
      var init, last := cs[..|cs| - 1], cs[|cs| - 1];
      FilterDistinct(init, p);
      var r := Sorting.Filter(init, p);
      forall i | 0 <= i < |r|
        ensures r[i].origin != last.origin
      {
        Sorting.FilterMember(init, p, r[i]);
        var j :| 0 <= j < |init| && init[j] == r[i];
        assert cs[j] == r[i];
      }
    }
  }

  lemma {:induction false} FailuresConcat(s: Scan, a: seq<Candidate>, b: seq<Candidate>)
    ensures Failures(s, a + b) == Failures(s, a) + Failures(s, b)
  {
    if b == [] {
      assert a + b == a;
    } else {
      FailuresConcat(s, a, b[..|b| - 1]);
      assert (a + b)[..|a + b| - 1] == a + b[..|b| - 1];
    }
  }

  lemma TakeOutFailures(s: Scan, pending: seq<Candidate>, k: nat)
    requires k < |pending|
    ensures multiset(Failures(s, pending))
         == multiset(Failures(s, pending[..k] + pending[k + 1..]))
            + (if Failure(s, pending[k]).Some? then multiset{Failure(s, pending[k]).value} else multiset{})
  {
    var a, c, b := pending[..k], pending[k], pending[k + 1..];
    assert pending == a + [c] + b;
    FailuresConcat(s, a + [c], b);
    FailuresConcat(s, a, [c]);
    FailuresConcat(s, a, b);
    assert [c][..0] == [];
  }

  /** The cache while the probes of `pending` are still running. */
  ghost predicate Midway(before: Cache, m: Cache, s: Scan, due: seq<Candidate>, pending: seq<Candidate>) {
    && DistinctOrigins(pending)
    && (forall c :: c in pending ==> c in due)
    && (forall c :: c in due && c !in pending ==> Lookup(m, c.origin) == Settle(Lookup(before, c.origin), s, c))
    && (forall o :: o !in OriginsOf(due) || o in OriginsOf(pending) ==> Lookup(m, o) == Lookup(before, o))
  }

  /** Whichever probe finishes next. */
  lemma MidwayStep(before: Cache, m: Cache, n: Cache, s: Scan, due: seq<Candidate>, pending: seq<Candidate>, k: nat)
    requires DistinctOrigins(due) && Midway(before, m, s, due, pending) && k < |pending|
    requires Lookup(n, pending[k].origin) == Settle(Lookup(m, pending[k].origin), s, pending[k])
    requires forall o :: o != pending[k].origin ==> Lookup(n, o) == Lookup(m, o)
    ensures Midway(before, n, s, due, pending[..k] + pending[k + 1..])
  {
  }

  lemma SameCache(m: Cache, n: Cache)
    requires forall o :: Lookup(m, o) == Lookup(n, o)
    ensures m == n
  {
    assert forall o :: o in m <==> Lookup(m, o).Some?;
    assert forall o :: o in n <==> Lookup(n, o).Some?;
    assert forall o :: o in m ==> m[o] == Lookup(m, o).value == Lookup(n, o).value == n[o];
  }

  lemma ReconciledAt(before: Cache, after: Cache, s: Scan, o: Origin)
    requires DistinctOrigins(s.candidates)
    requires forall c :: c in ToProbe(before, s) ==>
               Lookup(after, c.origin) == Settle(Lookup(Retained(before, s), c.origin), s, c)
    requires forall o :: o !in OriginsOf(ToProbe(before, s)) ==> Lookup(after, o) == Lookup(Retained(before, s), o)
    ensures Lookup(after, o) == SettledAt(before, s, o)
  {
    var due := ToProbe(before, s);
    match CandidateFor(s.candidates, o) {
      case Some(c) =>
        assert Lookup(Retained(before, s), o) == Lookup(before, o);
        Sorting.FilterMember(s.candidates, IsDue(before, s), c);
        if c !in due {
          forall d | d in due
            ensures d.origin != o
          {
            Sorting.FilterMember(s.candidates, IsDue(before, s), d);
          }
        }
      case None =>
        assert Lookup(Retained(before, s), o) == None;
        forall d | d in due
          ensures d.origin != o
        {
          Sorting.FilterMember(s.candidates, IsDue(before, s), d);
        }
    }
  }

  /** Dropping dead entries and settling each candidate that was due makes the cache `After`. */
  lemma Reconciled(before: Cache, after: Cache, s: Scan)
    requires DistinctOrigins(s.candidates)
    requires forall c :: c in ToProbe(before, s) ==>
               Lookup(after, c.origin) == Settle(Lookup(Retained(before, s), c.origin), s, c)
    requires forall o :: o !in OriginsOf(ToProbe(before, s)) ==> Lookup(after, o) == Lookup(Retained(before, s), o)
    ensures after == After(before, s)
  {
    forall o
      ensures Lookup(after, o) == Lookup(After(before, s), o)
    {
      ReconciledAt(before, after, s, o);
      AfterAt(before, s, o);
    }
    SameCache(after, After(before, s));
  }

  lemma AfterKeyed(before: Cache, s: Scan)
    requires KeyedByOrigin(before)
    ensures KeyedByOrigin(After(before, s))
  {
  }

  // ---------------------------------------------------------------- publishing

  /** `ds` lists the cached apps in some order. */
  ghost predicate Lists(ds: seq<App>, m: Cache) {
    Sorting.Distinct(ds) && forall d :: d in ds <==> Lookup(m, d.origin).Some? && m[d.origin].app == d
  }

  /** The catalog of the cached apps, taken in some order. */
  ghost predicate Publishes(c: Catalogs.Catalog, manual: seq<Catalogs.AppConfig>, m: Cache) {
    exists ds :: Lists(ds, m) && c == Catalogs.CatalogOf(manual, ds)
  }

  function AppAt(m: Cache, o: Origin): Option<App> {
    if o in m then Some(m[o].app) else None
  }

  lemma OneListing(a: seq<App>, b: seq<App>, m: Cache, n: Cache)
    requires Lists(a, m) && Lists(b, n) && forall o :: AppAt(m, o) == AppAt(n, o)
    ensures multiset(a) == multiset(b) && Catalogs.DistinctOrigins(a)
  {
    forall d
      ensures d in a <==> d in b
    {
      assert AppAt(m, d.origin) == AppAt(n, d.origin);
    }
    Sorting.SameMembersSameMultiset(a, b);
  }

  /** Which catalog is published depends on the cached apps alone, not on the map's iteration order
      nor on when they were verified. */
  lemma OneCatalog(c: Catalogs.Catalog, d: Catalogs.Catalog, manual: seq<Catalogs.AppConfig>, m: Cache, n: Cache)
    requires Publishes(c, manual, m) && Publishes(d, manual, n)
    requires forall o :: AppAt(m, o) == AppAt(n, o)
    ensures c == d
  {
    var a :| Lists(a, m) && c == Catalogs.CatalogOf(manual, a);
    var b :| Lists(b, n) && d == Catalogs.CatalogOf(manual, b);
    OneListing(a, b, m, n);
    Catalogs.OrderFree(manual, a, b);
  }

  // ---------------------------------------------------------------- the engine

  const NANOS_PER_SEC: nat := 1_000_000_000

  /** The discovery settings a scan reads at its start. */
  datatype Settings = Settings(enabled: bool, filter: ListenerFilter, includeUnattributed: bool, recheckSecs: nat)

  /** What a scan meets: the attributed socket table, or nothing when it cannot be read, the
      unattributed listening sockets, the clock in nanoseconds, and the probes. */
  datatype World = World(
    sockets: Option<seq<Listener>>,
    unattributed: seq<SocketAddr>,
    now: nat,
    finish: Origin -> nat,
    probe: Origin -> Probe,
    credible: ProbeResult -> bool)

  /** The table the filter sees. */
  function Seen(cfg: Settings, w: World): seq<Listener>
    requires w.sockets.Some?
  {
    if cfg.includeUnattributed then Merged(w.sockets.value, w.unattributed) else w.sockets.value
  }

  function Found(cfg: Settings, w: World): FilterOutcome
    requires w.sockets.Some?
  {
    Outcome(Seen(cfg, w), cfg.filter)
  }

  function Recheck(cfg: Settings): nat {
    NANOS_PER_SEC * if cfg.recheckSecs == 0 then 1 else cfg.recheckSecs
  }

  function ScanOf(cfg: Settings, w: World): Scan
    requires w.sockets.Some?
  {
    Scan(Found(cfg, w).candidates, Recheck(cfg), w.now, w.finish, w.probe, w.credible)
  }

  datatype Cycle = Disabled | Unreadable | Scanned(scan: Scan)

  function CycleOf(cfg: Settings, w: World): Cycle {
    if !cfg.enabled then Disabled else if w.sockets.None? then Unreadable else Scanned(ScanOf(cfg, w))
  }

  function Next(before: Cache, y: Cycle): Cache {
    match y
    case Disabled => map[]
    case Unreadable => before
    case Scanned(s) => After(before, s)
  }

  class DiscoveryEngine {
    var cache: Cache
    var lastScan: seq<Skipped>
    var catalog: Catalogs.Catalog
    var generation: nat

    ghost predicate Valid()
      reads this
    {
      KeyedByOrigin(cache)
    }

    constructor ()
      ensures Valid() && cache == map[] && lastScan == [] && generation == 0
    {
      cache, lastScan, catalog, generation := map[], [], Catalogs.Catalog([]), 0;
    }

    /** The cached apps in the order the map happens to yield them. */
    method Values() returns (ds: seq<App>)
      requires Valid()
      ensures Lists(ds, cache)
    {
      var rest := cache.Keys;
      ds := [];
      while rest != {}
        invariant rest <= cache.Keys && Sorting.Distinct(ds)
        invariant forall d :: d in ds <==> d.origin in cache && cache[d.origin].app == d && d.origin !in rest
        decreases |rest|
      {
        var o :| o in rest;
        ds := ds + [cache[o].app];
        rest := rest - {o};
      }
    }

    method RebuildCatalog(manual: seq<Catalogs.AppConfig>)
      requires Valid()
      modifies this`catalog, this`generation
      ensures Publishes(catalog, manual, cache) && generation == old(generation) + 1
    {
      var ds := Values();
      catalog := Catalogs.Rebuild(manual, ds);
      generation := generation + 1;
    }

    /** The candidates that are new or whose last verification is too old. */
    method DueCandidates(s: Scan) returns (due: seq<Candidate>)
      ensures due == ToProbe(cache, s)
    {
      due := [];
      for i := 0 to |s.candidates|
        invariant due == Sorting.Filter(s.candidates[..i], IsDue(cache, s))
      {
        var c := s.candidates[i];
        assert s.candidates[..i + 1] == s.candidates[..i] + [c];
        Sorting.FilterAppend(s.candidates[..i], c, IsDue(cache, s));
        if c.origin !in cache || s.now - cache[c.origin].lastVerified >= s.recheck {
          due := due + [c];
        }
      }
      assert s.candidates[..|s.candidates|] == s.candidates;
    }

    /** Takes in the result of one finished probe. */
    method Finish(s: Scan, c: Candidate) returns (failure: Option<Skipped>)
      requires Due(Lookup(cache, c.origin), s)
      modifies this`cache
      ensures Lookup(cache, c.origin) == Settle(Lookup(old(cache), c.origin), s, c)
      ensures forall o :: o != c.origin ==> Lookup(cache, o) == Lookup(old(cache), o)
      ensures failure == Failure(s, c)
    {
      failure := None;
      match s.probe(c.origin) {
        case Answered(Some(r)) =>
          if s.credible(r) {
            cache := cache[c.origin := CachedApp(Catalogs.DiscoveredApp(c.origin, r.title, c.process, c.pid),
                                                 s.finish(c.origin))];
          } else {
            failure := Some(Skipped(Authority(c.origin), c.process, NotCredible));
            cache := cache - {c.origin};
          }
        case Answered(None) =>
          failure := Some(Skipped(Authority(c.origin), c.process, Unreachable));
          cache := cache - {c.origin};
        case Panicked =>
      }
    }

    /** Takes the results of all the probes in whatever order they come. */
    method CollectProbes(s: Scan, due: seq<Candidate>) returns (failed: seq<Skipped>)
      requires DistinctOrigins(due) && forall c :: c in due ==> Due(Lookup(cache, c.origin), s)
      modifies this`cache
      ensures Midway(old(cache), cache, s, due, [])
      ensures multiset(failed) == multiset(Failures(s, due))
    {
      var pending := due;
      failed := [];
      while pending != []
        invariant Midway(old(cache), cache, s, due, pending)
        invariant multiset(failed) + multiset(Failures(s, pending)) == multiset(Failures(s, due))
        decreases |pending|
      {
        var k: nat :| k < |pending|;
        var c := pending[k];
        ghost var m := cache;
        assert Due(Lookup(m, c.origin), s) by { assert c in pending && c.origin in OriginsOf(pending); }
        var failure := Finish(s, c);
        MidwayStep(old(cache), m, cache, s, due, pending, k);
        TakeOutFailures(s, pending, k);
        if failure.Some? {
          failed := failed + [failure.value];
        }
        pending := pending[..k] + pending[k + 1..];
      }
    }

    /** Drops the entries whose socket is gone and probes what is due. */
    method Reconcile(s: Scan) returns (failed: seq<Skipped>)
      requires DistinctOrigins(s.candidates)
      modifies this`cache
      ensures cache == After(old(cache), s)
      ensures multiset(failed) == multiset(Failures(s, ToProbe(old(cache), s)))
    {
      var live := set c | c in s.candidates :: c.origin;
      cache := map o | o in cache && o in live :: cache[o];
      assert cache == Retained(old(cache), s);
      ToProbeRetained(old(cache), s);
      var due := DueCandidates(s);
      FilterDistinct(s.candidates, IsDue(old(cache), s));
      failed := CollectProbes(s, due);
      Reconciled(old(cache), cache, s);
    }

    /** One discovery cycle. The manual apps are read again when the catalog is rebuilt. */
    method ScanOnce(cfg: Settings, w: World, manual: seq<Catalogs.AppConfig>)
      requires Valid()
      modifies this
      ensures Valid() && cache == Next(old(cache), CycleOf(cfg, w))
      ensures match CycleOf(cfg, w)
              case Disabled => lastScan == old(lastScan)
              case Unreadable => lastScan == old(lastScan) && catalog == old(catalog) && generation == old(generation)
              case Scanned(s) => ScanReport(lastScan, Found(cfg, w).skipped, Failures(s, ToProbe(old(cache), s)))
      ensures !CycleOf(cfg, w).Unreadable? ==> Publishes(catalog, manual, cache) && generation == old(generation) + 1
    {
      if !cfg.enabled {
        cache := map[];
        RebuildCatalog(manual);
        return;
      }
      if w.sockets.None? {
        return;
      }
      var all := w.sockets.value;
      if cfg.includeUnattributed {
        all := MergeUnattributed(all, w.unattributed);
      }
      var found := FilterListeners(all, cfg.filter);
      var s := Scan(found.candidates, Recheck(cfg), w.now, w.finish, w.probe, w.credible);
      assert DistinctOrigins(s.candidates) by { FilterAccounts(all, cfg.filter); }
      var failed := Reconcile(s);
      AfterKeyed(old(cache), s);
      lastScan := found.skipped + failed;
      RebuildCatalog(manual);
    }
  }

  // ---------------------------------------------------------------- what one scan guarantees

  lemma {:induction false} FailureListed(s: Scan, cs: seq<Candidate>, x: Skipped)
    ensures x in Failures(s, cs) <==> exists c :: c in cs && Failure(s, c) == Some(x)
  {
    if cs != [] {
      var init, last := cs[..|cs| - 1], cs[|cs| - 1];
      FailureListed(s, init, x);
      assert cs == init + [last];
    }
  }

  /** The scan's probe failures have an entry with this candidate's address. */
  ghost predicate Reported(before: Cache, s: Scan, c: Candidate) {
    exists x :: x in Failures(s, ToProbe(before, s)) && x.origin == Authority(c.origin)
  }

  /** The probe of this candidate was due and found no app. */
  predicate Fails(before: Cache, s: Scan, c: Candidate) { IsDue(before, s)(c) && Failure(s, c).Some? }

  /** An entry with a candidate's address is about that candidate. */
  lemma ReportIsOwn(before: Cache, s: Scan, c: Candidate, x: Skipped)
    requires DistinctOrigins(s.candidates) && c in s.candidates
    requires x in Failures(s, ToProbe(before, s)) && x.origin == Authority(c.origin)
    ensures Fails(before, s, c) && Failure(s, c) == Some(x)
  {
    FailureListed(s, ToProbe(before, s), x);
    var d :| d in ToProbe(before, s) && Failure(s, d) == Some(x);
    Sorting.FilterMember(s.candidates, IsDue(before, s), d);
    AuthorityInjective(c.origin, d.origin);
    CandidateForSelf(s.candidates, c);
    CandidateForSelf(s.candidates, d);
  }

  lemma ReportedFails(before: Cache, s: Scan, c: Candidate)
    requires DistinctOrigins(s.candidates) && c in s.candidates
    ensures Reported(before, s, c) <==> Fails(before, s, c)
  {
    if Reported(before, s, c) {
      var x :| x in Failures(s, ToProbe(before, s)) && x.origin == Authority(c.origin);
      ReportIsOwn(before, s, c, x);
    }
    if Fails(before, s, c) {
      Sorting.FilterMember(s.candidates, IsDue(before, s), c);
      FailureListed(s, ToProbe(before, s), Failure(s, c).value);
    }
  }

  lemma {:induction false} FailuresDistinct(s: Scan, cs: seq<Candidate>)
    requires DistinctOrigins(cs)
    ensures forall i, j :: 0 <= i < j < |Failures(s, cs)| ==> Failures(s, cs)[i].origin != Failures(s, cs)[j].origin
  {
    if cs != [] {
      var init, last := cs[..|cs| - 1], cs[|cs| - 1];
      var r := Failures(s, init);
      FailuresDistinct(s, init);
      forall i | 0 <= i < |r|
        ensures r[i].origin != Authority(last.origin)
      {
        FailureListed(s, init, r[i]);
        var d :| d in init && Failure(s, d) == Some(r[i]);
        var k :| 0 <= k < |init| && init[k] == d;
        assert cs[k] == d;
        if Authority(d.origin) == Authority(last.origin) { AuthorityInjective(d.origin, last.origin); }
      }
    }
  }

  /** Every candidate ends up in exactly one of the cache and the failure report; the one exception
      is a candidate whose probe panicked and which was not cached before, which is in neither. An
      entry with its address is its own failure, and no address is reported twice. */
  lemma EachCandidateOnce(before: Cache, s: Scan, c: Candidate)
    requires DistinctOrigins(s.candidates) && c in s.candidates
    ensures !(c.origin in After(before, s) && Reported(before, s, c))
    ensures c.origin in After(before, s) || Reported(before, s, c)
       <==> !(s.probe(c.origin).Panicked? && c.origin !in before)
    ensures
      var report := Failures(s, ToProbe(before, s));
      && (forall x :: x in report && x.origin == Authority(c.origin) ==> Failure(s, c) == Some(x))
      && forall i, j :: 0 <= i < j < |report| ==> report[i].origin != report[j].origin
  {
    CandidateForSelf(s.candidates, c);
    AfterAt(before, s, c.origin);
    ReportedFails(before, s, c);
    FilterDistinct(s.candidates, IsDue(before, s));
    FailuresDistinct(s, ToProbe(before, s));
    forall x | x in Failures(s, ToProbe(before, s)) && x.origin == Authority(c.origin)
      ensures Failure(s, c) == Some(x)
    {
      ReportIsOwn(before, s, c, x);
    }
  }

  /** After a scan every cached origin is a live candidate's, and an entry has outlived the recheck
      period exactly when its probe was due and panicked. */
  lemma VerifiedRecently(before: Cache, s: Scan, o: Origin)
    requires o in After(before, s) && s.recheck > 0 && s.now <= s.finish(o)
    ensures o in OriginsOf(s.candidates)
    ensures s.now - After(before, s)[o].lastVerified < s.recheck <==>
            !(Due(Lookup(before, o), s) && s.probe(o).Panicked?)
  {
  }

  // ---------------------------------------------------------------- incremental versus from scratch

  /** Probing this candidate now would confirm what the cache says about it, and if it has to be
      probed and the probe panics, nothing is cached. */
  predicate Unchanged(before: Cache, s: Scan, c: Candidate) {
    if IsDue(before, s)(c) then s.probe(c.origin).Panicked? ==> c.origin !in before
    else ProbedApp(s, c) == AppAt(before, c.origin)
  }

  lemma IncrementalAt(before: Cache, s: Scan, o: Origin)
    ensures AppAt(After(before, s), o) == AppAt(After(map[], s), o) <==>
            match CandidateFor(s.candidates, o) case Some(c) => Unchanged(before, s, c) case None => true
  {
  }

  /** A scan that skips recently verified origins ends with the same apps as one that probes
      everything, exactly when every candidate is unchanged. */
  lemma IncrementalIsScratch(before: Cache, s: Scan)
    requires DistinctOrigins(s.candidates)
    ensures (forall o :: AppAt(After(before, s), o) == AppAt(After(map[], s), o))
       <==> forall c :: c in s.candidates ==> Unchanged(before, s, c)
  {
    forall o
      ensures AppAt(After(before, s), o) == AppAt(After(map[], s), o) <==>
              match CandidateFor(s.candidates, o) case Some(c) => Unchanged(before, s, c) case None => true
    {
      IncrementalAt(before, s, o);
    }
    forall c | c in s.candidates
      ensures CandidateFor(s.candidates, c.origin) == Some(c)
    {
      CandidateForSelf(s.candidates, c);
    }
  }

  /** The i-th socket is accepted by the filter and its probe finds this app. */
  ghost predicate FoundAt(cfg: Settings, w: World, i: nat, d: App)
    requires w.sockets.Some? && i < |Seen(cfg, w)|
  {
    var l := Seen(cfg, w)[i];
    && Accepted(Seen(cfg, w), cfg.filter, i) && w.probe(OriginOf(l)).Answered?
    && match w.probe(OriginOf(l)).result
       case None => false
       case Some(r) =>
         && w.credible(r)
         && d == Catalogs.DiscoveredApp(OriginOf(l), r.title, ProcessOf(l), if l.pid != 0 then Some(l.pid) else None)
  }

  lemma ScratchApp(s: Scan, d: App)
    requires DistinctOrigins(s.candidates)
    ensures AppAt(After(map[], s), d.origin) == Some(d) <==> exists c :: c in s.candidates && ProbedApp(s, c) == Some(d)
  {
  }

  /** The whole pipeline: a scan from an empty cache publishes exactly the apps that probing the
      accepted sockets finds, with the socket's process and pid and the page's title, except where
      a manual app has the same origin. */
  lemma PublishedAreFound(cfg: Settings, w: World, manual: seq<Catalogs.AppConfig>, c: Catalogs.Catalog, d: App)
    requires w.sockets.Some? && Publishes(c, manual, After(map[], ScanOf(cfg, w)))
    ensures Catalogs.Shows(c, d)
       <==> d.origin !in Catalogs.ManualOrigins(manual)
            && exists i :: 0 <= i < |Seen(cfg, w)| && FoundAt(cfg, w, i, d)
  {
    var s, all := ScanOf(cfg, w), Seen(cfg, w);
    var ds: seq<App> :| Lists(ds, After(map[], s)) && c == Catalogs.CatalogOf(manual, ds);
    Catalogs.ShownApps(manual, ds, d);
    FilterAccounts(all, cfg.filter);
    ScratchApp(s, d);
    if c :| c in s.candidates && ProbedApp(s, c) == Some(d) {
      CandidatesAreAccepted(all, cfg.filter, c);
      var i :| 0 <= i < |all| && Accepted(all, cfg.filter, i) && CandidateOf(all[i]) == c;
      assert FoundAt(cfg, w, i, d);
    }
    if i :| 0 <= i < |all| && FoundAt(cfg, w, i, d) {
      CandidatesAreAccepted(all, cfg.filter, CandidateOf(all[i]));
      assert ProbedApp(s, CandidateOf(all[i])) == Some(d);
    }
  }

  /** The cache after a run of cycles from an empty one. */
  function Run(ys: seq<Cycle>): Cache {
    if ys == [] then map[] else Next(Run(ys[..|ys| - 1]), ys[|ys| - 1])
  }

  /** In all the run's scans an origin always probes to the same app, or always to none. */
  ghost predicate Steady(ys: seq<Cycle>, truth: Origin -> Option<App>) {
    forall y :: y in ys && y.Scanned? ==> SteadyScan(y.scan, truth)
  }

  ghost predicate SteadyScan(s: Scan, truth: Origin -> Option<App>) {
    forall c :: c in s.candidates ==> !s.probe(c.origin).Panicked? && ProbedApp(s, c) == truth(c.origin)
  }

  ghost predicate Truthful(m: Cache, truth: Origin -> Option<App>) {
    forall o :: o in m ==> truth(o) == Some(m[o].app)
  }

  lemma ScanTruthful(before: Cache, s: Scan, truth: Origin -> Option<App>)
    requires SteadyScan(s, truth) && Truthful(before, truth)
    ensures forall o :: AppAt(After(before, s), o) == if o in OriginsOf(s.candidates) then truth(o) else None
  {
  }

  lemma {:induction false} RunTruthful(ys: seq<Cycle>, truth: Origin -> Option<App>)
    requires Steady(ys, truth)
    ensures Truthful(Run(ys), truth)
  {
    if ys != [] {
      var init, y := ys[..|ys| - 1], ys[|ys| - 1];
      assert y in ys && forall z :: z in init ==> z in ys;
      RunTruthful(init, truth);
      if y.Scanned? {
        ScanTruthful(Run(init), y.scan, truth);
        assert forall o :: o in Run(ys) ==> AppAt(Run(ys), o) == Some(Run(ys)[o].app);
      }
    }
  }

  /** Over any steady run, with sockets coming and going, discovery being switched off and on and
      enumeration failing in between, each scan publishes what probing everything afresh would. */
  lemma SteadyRunIsScratch(ys: seq<Cycle>, s: Scan, truth: Origin -> Option<App>,
                           manual: seq<Catalogs.AppConfig>, c: Catalogs.Catalog, d: Catalogs.Catalog)
    requires Steady(ys + [Scanned(s)], truth)
    requires Publishes(c, manual, Run(ys + [Scanned(s)])) && Publishes(d, manual, After(map[], s))
    ensures c == d
  {
    assert (ys + [Scanned(s)])[..|ys|] == ys;
    assert Scanned(s) in ys + [Scanned(s)] && forall y :: y in ys ==> y in ys + [Scanned(s)];
    RunTruthful(ys, truth);
    ScanTruthful(Run(ys), s, truth);
    ScanTruthful(map[], s, truth);
    OneCatalog(c, d, manual, Run(ys + [Scanned(s)]), After(map[], s));
  }

  // ---------------------------------------------------------------- hiding

  /** A hidden origin is in no catalog published after the next scan, unless a manual app is there. */
  lemma HiddenStaysOut(cfg: Settings, w: World, before: Cache, o: Origin,
                       manual: seq<Catalogs.AppConfig>, c: Catalogs.Catalog, e: Catalogs.CatalogApp)
    requires w.sockets.Some? && o in cfg.filter.excludeOrigins
    requires Publishes(c, manual, After(before, ScanOf(cfg, w))) && e in c.apps && e.origin == o
    ensures e.source == Catalogs.Manual
  {
    if e.source == Catalogs.Discovered {
      var m, s := After(before, ScanOf(cfg, w)), ScanOf(cfg, w);
      var ds: seq<App> :| Lists(ds, m) && c == Catalogs.CatalogOf(manual, ds);
      Catalogs.ShownApps(manual, ds, Catalogs.AppOf(e));
      assert Lookup(m, o).Some?;
      assert o in OriginsOf(s.candidates);
      ExcludedNotCandidate(Seen(cfg, w), cfg.filter, o);
    }
  }
}
