/** The catalog of configured and discovered apps: naming, lookup and routing. */
module Catalogs {
  import opened Text
  import opened Origins
  import Names
  import Sorting

  datatype AppConfig = AppConfig(name: string, port: Port)

  datatype DiscoveredApp =
    DiscoveredApp(origin: Origin, title: Option<string>, process: Option<string>, pid: Option<nat>)

  datatype AppSource = Manual | Discovered

  datatype CatalogApp = CatalogApp(
    name: string,
    title: Option<string>,
    origin: Origin,
    source: AppSource,
    process: Option<string>,
    pid: Option<nat>)

  datatype Catalog = Catalog(apps: seq<CatalogApp>)

  // ---------------------------------------------------------------- unique names

  /** The title's slug, or the process name's, or "app". */
  function NameBase(d: DiscoveredApp): string {
    var title := if d.title.Some? then Names.Slug(d.title.value) else "";
    var process := if d.process.Some? then Names.Slug(d.process.value) else "";
    if title != "" then title else if process != "" then process else "app"
  }

  /** The names tried for one app, in order: base, base-port, base-port-2, base-port-3, ... */
  function Numbered(base: string, port: Port, k: nat): string {
    if k == 0 then base
    else if k == 1 then base + "-" + Dec(port)
    else base + "-" + Dec(port) + "-" + Dec(k)
  }

  lemma NumberedDistinct(base: string, port: Port, i: nat, j: nat)
    requires i < j
    ensures Numbered(base, port, i) != Numbered(base, port, j)
  {
    var stem := base + "-" + Dec(port) + "-";
    if 2 <= i && Numbered(base, port, i) == Numbered(base, port, j) {
      assert (stem + Dec(i))[|stem|..] == Dec(i) && (stem + Dec(j))[|stem|..] == Dec(j);
      DecInjective(i, j);
    }
  }

  /** At most |used| of the names tried can be taken. */
  lemma {:induction false} Pigeonhole(base: string, port: Port, used: set<string>, n: nat)
    requires forall k :: 0 <= k < n ==> Numbered(base, port, k) in used
    ensures n <= |used|
  {
    if n > 0 {
      var last := Numbered(base, port, n - 1);
      forall k | 0 <= k < n - 1
        ensures Numbered(base, port, k) in used - {last}
      {
        NumberedDistinct(base, port, k, n - 1);
      }
      Pigeonhole(base, port, used - {last}, n - 1);
    }
  }

  /** Index of the first free name, given that the first k are taken. */
  function FirstFree(base: string, port: Port, used: set<string>, k: nat): (n: nat)
    requires forall j :: 0 <= j < k ==> Numbered(base, port, j) in used
    ensures n <= |used| && Numbered(base, port, n) !in used
    ensures forall j :: 0 <= j < n ==> Numbered(base, port, j) in used
    decreases |used| - k
  {
    Pigeonhole(base, port, used, k);
    if Numbered(base, port, k) !in used then k
    else
      Pigeonhole(base, port, used, k + 1);
      FirstFree(base, port, used, k + 1)
  }

  function Unique(base: string, port: Port, used: set<string>): string {
    Numbered(base, port, FirstFree(base, port, used, 0))
  }

  lemma UniqueIs(base: string, port: Port, used: set<string>, n: nat)
    requires Numbered(base, port, n) !in used && forall j :: 0 <= j < n ==> Numbered(base, port, j) in used
    ensures Unique(base, port, used) == Numbered(base, port, n)
  {
  }

  /** Takes the first free name; the counter never passes |used|. */
  method UniqueName(base: string, port: Port, used: set<string>) returns (name: string, used': set<string>)
    ensures name == Unique(base, port, used) && name !in used && used' == used + {name}
  {
    if base !in used {
      UniqueIs(base, port, used, 0);
      return base, used + {base};
    }
    var withPort := base + "-" + Dec(port);
    if withPort !in used {
      UniqueIs(base, port, used, 1);
      return withPort, used + {withPort};
    }
    var n := 2;
    Pigeonhole(base, port, used, n);
    while true
      invariant 2 <= n <= |used|
      invariant forall k :: 0 <= k < n ==> Numbered(base, port, k) in used
      decreases |used| - n
    {
      var candidate := base + "-" + Dec(port) + "-" + Dec(n);
      if candidate !in used {
        UniqueIs(base, port, used, n);
        return candidate, used + {candidate};
      }
      n := n + 1;
      Pigeonhole(base, port, used, n);
    }
  }

  // ---------------------------------------------------------------- the catalog

  function NamesOf(apps: seq<CatalogApp>): set<string> { set a | a in apps :: a.name }

  lemma NamesConcat(a: seq<CatalogApp>, b: seq<CatalogApp>)
    ensures NamesOf(a + b) == NamesOf(a) + NamesOf(b)
  {
  }

  function ManualOrigin(m: AppConfig): Origin { Origin("127.0.0.1", m.port) }

  function ManualEntry(m: AppConfig): CatalogApp {
    CatalogApp(m.name, None, ManualOrigin(m), Manual, None, None)
  }

  function ManualEntries(manual: seq<AppConfig>): seq<CatalogApp> {
    if manual == [] then []
    else ManualEntries(manual[..|manual| - 1]) + [ManualEntry(manual[|manual| - 1])]
  }

  function ManualOrigins(manual: seq<AppConfig>): set<Origin> { set m | m in manual :: ManualOrigin(m) }

  function Outside(origins: set<Origin>): DiscoveredApp -> bool {
    (d: DiscoveredApp) => d.origin !in origins
  }

  /** Not shadowed by a manual entry. */
  function Exposed(manual: seq<AppConfig>): DiscoveredApp -> bool { Outside(ManualOrigins(manual)) }

  predicate OriginLeq(a: Origin, b: Origin) {
    a.port < b.port || (a.port == b.port && TextLeq(a.host, b.host))
  }

  function AppLeq(): (DiscoveredApp, DiscoveredApp) -> bool {
    (a: DiscoveredApp, b: DiscoveredApp) => OriginLeq(a.origin, b.origin)
  }

  function Entry(d: DiscoveredApp, name: string): CatalogApp {
    CatalogApp(name, d.title, d.origin, Discovered, d.process, d.pid)
  }

  /** How an app is named, avoiding the names taken. */
  type NameRule = (DiscoveredApp, set<string>) -> string

  function Namer(): NameRule {
    (d: DiscoveredApp, taken: set<string>) => Unique(NameBase(d), d.origin.port, taken)
  }

  /** Names given one after the other, each avoiding all the names before it. */
  function Entries(ds: seq<DiscoveredApp>, taken: set<string>, namer: NameRule):
    (r: seq<CatalogApp>)
    ensures |r| == |ds|
  {
    if ds == [] then []
    else
      var r, d := Entries(ds[..|ds| - 1], taken, namer), ds[|ds| - 1];
      r + [Entry(d, namer(d, taken + NamesOf(r)))]
  }

  function Shown(manual: seq<AppConfig>, discovered: seq<DiscoveredApp>): seq<DiscoveredApp> {
    Sorting.Filter(Sorting.Sort(discovered, AppLeq()), Exposed(manual))
  }

  function DiscoveredEntries(manual: seq<AppConfig>, discovered: seq<DiscoveredApp>): seq<CatalogApp> {
    Entries(Shown(manual, discovered), NamesOf(ManualEntries(manual)), Namer())
  }

  function CatalogOf(manual: seq<AppConfig>, discovered: seq<DiscoveredApp>): Catalog {
    Catalog(ManualEntries(manual) + DiscoveredEntries(manual, discovered))
  }

  lemma ManualStep(manual: seq<AppConfig>, m: AppConfig)
    ensures ManualEntries(manual + [m]) == ManualEntries(manual) + [ManualEntry(m)]
    ensures ManualOrigins(manual + [m]) == ManualOrigins(manual) + {ManualOrigin(m)}
  {
  }

  lemma NamesAppend(apps: seq<CatalogApp>, a: CatalogApp)
    ensures NamesOf(apps + [a]) == NamesOf(apps) + {a.name}
  {
  }

  /** `fixed` and then the apps of `ds` outside `origins`, named. */
  function Listed(fixed: seq<CatalogApp>, ds: seq<DiscoveredApp>, origins: set<Origin>,
                  namer: NameRule): seq<CatalogApp>
  {
    fixed + Entries(Sorting.Filter(ds, Outside(origins)), NamesOf(fixed), namer)
  }

  lemma EntriesNext(shown: seq<DiscoveredApp>, d: DiscoveredApp, taken: set<string>,
                    namer: NameRule)
    ensures
      var r := Entries(shown, taken, namer);
      Entries(shown + [d], taken, namer) == r + [Entry(d, namer(d, taken + NamesOf(r)))]
  {
  }

  lemma ListedNext(fixed: seq<CatalogApp>, ds: seq<DiscoveredApp>, origins: set<Origin>,
                   namer: NameRule, d: DiscoveredApp)
    ensures
      var apps := Listed(fixed, ds, origins, namer);
      Listed(fixed, ds + [d], origins, namer) ==
      if d.origin in origins then apps else apps + [Entry(d, namer(d, NamesOf(apps)))]
  {
    var shown := Sorting.Filter(ds, Outside(origins));
    assert Sorting.Filter(ds + [d], Outside(origins)) == if d.origin in origins then shown else shown + [d] by {
      Sorting.FilterAppend(ds, d, Outside(origins));
    }
    if d.origin !in origins {
      var r := Entries(shown, NamesOf(fixed), namer);
      NamesConcat(fixed, r);
      var e := Entry(d, namer(d, NamesOf(fixed + r)));
      assert Entries(shown + [d], NamesOf(fixed), namer) == r + [e] by { EntriesNext(shown, d, NamesOf(fixed), namer); }
      assert fixed + (r + [e]) == fixed + r + [e];
    }
  }

  /** The loop over the manual apps. */
  method ListManual(manual: seq<AppConfig>) returns (apps: seq<CatalogApp>, used: set<string>, origins: set<Origin>)
    ensures apps == ManualEntries(manual) && used == NamesOf(apps) && origins == ManualOrigins(manual)
  {
    apps, used, origins := [], {}, {};
    for i := 0 to |manual|
      invariant apps == ManualEntries(manual[..i]) && used == NamesOf(apps)
      invariant origins == ManualOrigins(manual[..i])
    {
      var app := manual[i];
      var origin := Origin("127.0.0.1", app.port);
      assert manual[..i + 1] == manual[..i] + [app];
      ManualStep(manual[..i], app);
      NamesAppend(apps, ManualEntry(app));
      origins := origins + {origin};
      used := used + {app.name};
      apps := apps + [CatalogApp(app.name, None, origin, Manual, None, None)];
    }
    assert manual[..|manual|] == manual;
  }

  /** The loop over the sorted discovered apps. */
  method NameDiscovered(fixed: seq<CatalogApp>, taken: set<string>, origins: set<Origin>, sorted: seq<DiscoveredApp>)
    returns (apps: seq<CatalogApp>)
    requires taken == NamesOf(fixed)
    ensures apps == Listed(fixed, sorted, origins, Namer())
  {
    var used := taken;
    apps := fixed;
    for i := 0 to |sorted|
      invariant apps == Listed(fixed, sorted[..i], origins, Namer())
      invariant used == NamesOf(apps)
    {
      var d := sorted[i];
      assert sorted[..i + 1] == sorted[..i] + [d];
      ListedNext(fixed, sorted[..i], origins, Namer(), d);
      if d.origin in origins {
        continue;
      }
      var name, used' := UniqueName(NameBase(d), d.origin.port, used);
      NamesAppend(apps, Entry(d, name));
      apps, used := apps + [CatalogApp(name, d.title, d.origin, Discovered, d.process, d.pid)], used';
    }
    assert sorted[..|sorted|] == sorted;
  }

  method Rebuild(manual: seq<AppConfig>, discovered: seq<DiscoveredApp>) returns (c: Catalog)
    ensures c == CatalogOf(manual, discovered)
  {
    var apps, used, manualOrigins := ListManual(manual);
    apps := NameDiscovered(apps, used, manualOrigins, Sorting.Sort(discovered, AppLeq()));
    c := Catalog(apps);
  }

  // ---------------------------------------------------------------- independence of order

  ghost predicate DistinctOrigins(ds: seq<DiscoveredApp>) {
    forall x, y :: x in ds && y in ds && x.origin == y.origin ==> x == y
  }

  lemma AppOrder()
    ensures Sorting.TotalPreorder(AppLeq())
    ensures forall a, b :: OriginLeq(a, b) && OriginLeq(b, a) ==> a == b
  {
    TextOrder();
    forall a, b | OriginLeq(a, b) && OriginLeq(b, a)
      ensures a == b
    {
      TextTotal(a.host, b.host);
    }
  }

  /** The catalog does not depend on the order the discovery cache hands its apps over in. */
  lemma OrderFree(manual: seq<AppConfig>, a: seq<DiscoveredApp>, b: seq<DiscoveredApp>)
    requires DistinctOrigins(a) && multiset(a) == multiset(b)
    ensures CatalogOf(manual, a) == CatalogOf(manual, b)
  {
    AppOrder();
    Sorting.SortPermutation(a, b, AppLeq());
  }

  /** Listed before `o`. */
  function Before(o: Origin): DiscoveredApp -> bool {
    (d: DiscoveredApp) => OriginLeq(d.origin, o) && d.origin != o
  }

  function EntryBefore(o: Origin): CatalogApp -> bool {
    (e: CatalogApp) => OriginLeq(e.origin, o) && e.origin != o
  }

  lemma {:induction false} EntriesPrefix(ds: seq<DiscoveredApp>, k: nat, taken: set<string>, namer: NameRule)
    requires k <= |ds|
    ensures Entries(ds, taken, namer)[..k] == Entries(ds[..k], taken, namer)
  {
    if k == |ds| {
      assert ds[..k] == ds;
    } else {
      EntriesPrefix(ds[..|ds| - 1], k, taken, namer);
      assert ds[..|ds| - 1][..k] == ds[..k];
    }
  }

  lemma {:induction false} EntriesOrigins(ds: seq<DiscoveredApp>, taken: set<string>, namer: NameRule)
    ensures forall i :: 0 <= i < |ds| ==>
              Entries(ds, taken, namer)[i].origin == ds[i].origin && Entries(ds, taken, namer)[i].source == Discovered
  {
    if ds != [] {
      EntriesOrigins(ds[..|ds| - 1], taken, namer);
    }
  }

  /** In listing order the apps before `o` come first. */
  lemma BeforeComesFirst(ds: seq<DiscoveredApp>, o: Origin)
    requires Sorting.Sorted(ds, AppLeq())
    ensures
      var k := |Sorting.Filter(ds, Before(o))|;
      && k <= |ds| && ds[..k] == Sorting.Filter(ds, Before(o))
      && (forall i :: 0 <= i < k ==> Before(o)(ds[i]))
      && forall i :: k <= i < |ds| ==> !Before(o)(ds[i])
  {
    var low := Sorting.Filter(ds, Before(o));
    assert forall x, y :: AppLeq()(x, y) && Before(o)(y) ==> Before(o)(x) by { BeforeClosed(o); }
    Sorting.FilterPrefix(ds, AppLeq(), Before(o));
    assert ds[..|low|] == low;
    forall i | 0 <= i < |low|
      ensures Before(o)(ds[i])
    {
      assert low[i] in low;
      Sorting.FilterMember(ds, Before(o), low[i]);
    }
  }

  lemma BeforeClosed(o: Origin)
    ensures forall x, y :: OriginLeq(x, y) && OriginLeq(y, o) && y != o ==> OriginLeq(x, o) && x != o
  {
    TextOrder();
    AppOrder();
  }

  lemma FilterSplit(es: seq<CatalogApp>, k: nat, p: CatalogApp -> bool)
    requires k <= |es|
    requires (forall i :: 0 <= i < k ==> p(es[i])) && (forall i :: k <= i < |es| ==> !p(es[i]))
    ensures Sorting.Filter(es, p) == es[..k]
  {
    assert es == es[..k] + es[k..];
    Sorting.FilterConcat(es[..k], es[k..], p);
    Sorting.FilterAll(es[..k], p);
    Sorting.FilterNone(es[k..], p);
    assert es[..k] + [] == es[..k];
  }

  /** The entries before `o` come from the apps before `o` alone. */
  lemma EntriesBefore(ds: seq<DiscoveredApp>, taken: set<string>, namer: NameRule, o: Origin)
    requires Sorting.Sorted(ds, AppLeq())
    ensures Sorting.Filter(Entries(ds, taken, namer), EntryBefore(o))
         == Entries(Sorting.Filter(ds, Before(o)), taken, namer)
  {
    BeforeComesFirst(ds, o);
    var k, es := |Sorting.Filter(ds, Before(o))|, Entries(ds, taken, namer);
    EntriesPrefix(ds, k, taken, namer);
    EntriesOrigins(ds, taken, namer);
    assert forall i :: 0 <= i < |ds| ==> EntryBefore(o)(es[i]) == Before(o)(ds[i]);
    FilterSplit(es, k, EntryBefore(o));
  }

  lemma ShownBefore(manual: seq<AppConfig>, ds: seq<DiscoveredApp>, o: Origin)
    ensures Sorting.Filter(Shown(manual, ds), Before(o)) == Shown(manual, Sorting.Filter(ds, Before(o)))
  {
    AppOrder();
    Sorting.FilterCommute(Sorting.Sort(ds, AppLeq()), Exposed(manual), Before(o));
    Sorting.SortFilter(ds, AppLeq(), Before(o));
  }

  /** Names are stable: the entries listed before an origin depend on nothing but the manual apps
      and the apps listed before it, whatever is added, removed or changed from there on. */
  lemma LowerAppsDecide(manual: seq<AppConfig>, a: seq<DiscoveredApp>, b: seq<DiscoveredApp>, o: Origin)
    requires DistinctOrigins(a)
    requires multiset(Sorting.Filter(a, Before(o))) == multiset(Sorting.Filter(b, Before(o)))
    ensures Sorting.Filter(DiscoveredEntries(manual, a), EntryBefore(o))
         == Sorting.Filter(DiscoveredEntries(manual, b), EntryBefore(o))
  {
    var taken := NamesOf(ManualEntries(manual));
    var lowA, lowB := Sorting.Filter(a, Before(o)), Sorting.Filter(b, Before(o));
    assert Shown(manual, lowA) == Shown(manual, lowB) by {
      forall x | x in lowA
        ensures x in a
      {
        Sorting.FilterMember(a, Before(o), x);
      }
      AppOrder();
      Sorting.SortPermutation(lowA, lowB, AppLeq());
    }
    ShownBefore(manual, a, o);
    ShownBefore(manual, b, o);
    ShownSorted(manual, a);
    ShownSorted(manual, b);
    EntriesBefore(Shown(manual, a), taken, Namer(), o);
    EntriesBefore(Shown(manual, b), taken, Namer(), o);
  }

  /** In particular a new app renames nothing listed before it. */
  lemma AddingKeepsNames(manual: seq<AppConfig>, ds: seq<DiscoveredApp>, d: DiscoveredApp, e: CatalogApp)
    requires DistinctOrigins(ds) && OriginLeq(e.origin, d.origin) && e.origin != d.origin
    ensures e in CatalogOf(manual, ds).apps <==> e in CatalogOf(manual, ds + [d]).apps
  {
    Sorting.FilterAppend(ds, d, Before(d.origin));
    LowerAppsDecide(manual, ds, ds + [d], d.origin);
    Sorting.FilterMember(DiscoveredEntries(manual, ds), EntryBefore(d.origin), e);
    Sorting.FilterMember(DiscoveredEntries(manual, ds + [d]), EntryBefore(d.origin), e);
  }

  // ---------------------------------------------------------------- coverage

  /** The app behind a discovered entry. */
  function AppOf(e: CatalogApp): DiscoveredApp { DiscoveredApp(e.origin, e.title, e.process, e.pid) }

  function AppsOf(es: seq<CatalogApp>): seq<DiscoveredApp> {
    if es == [] then [] else AppsOf(es[..|es| - 1]) + [AppOf(es[|es| - 1])]
  }

  lemma {:induction false} AppsMember(es: seq<CatalogApp>, d: DiscoveredApp)
    ensures d in AppsOf(es) <==> exists e :: e in es && AppOf(e) == d
  {
    if es != [] {
      AppsMember(es[..|es| - 1], d);
      assert es == es[..|es| - 1] + [es[|es| - 1]];
    }
  }

  lemma {:induction false} EntriesShow(ds: seq<DiscoveredApp>, taken: set<string>, namer: NameRule)
    ensures AppsOf(Entries(ds, taken, namer)) == ds
  {
    if ds != [] {
      var init, es := ds[..|ds| - 1], Entries(ds, taken, namer);
      EntriesShow(init, taken, namer);
      assert es[..|es| - 1] == Entries(init, taken, namer);
      assert ds == init + [ds[|ds| - 1]];
    }
  }

  /** The catalog lists the manual apps in their order under their own names, then exactly the
      discovered apps no manual app shadows, each as often as it was discovered, ordered by port
      and host and with their details intact. */
  lemma Covers(manual: seq<AppConfig>, ds: seq<DiscoveredApp>)
    ensures
      var apps, n := CatalogOf(manual, ds).apps, |manual|;
      && n <= |apps|
      && (forall i :: 0 <= i < n ==> apps[i] == ManualEntry(manual[i]))
      && (forall e :: e in apps[n..] ==> e.source == Discovered)
      && Sorting.Sorted(AppsOf(apps[n..]), AppLeq())
      && multiset(AppsOf(apps[n..])) == multiset(Sorting.Filter(ds, Exposed(manual)))
  {
    var apps, m, e := CatalogOf(manual, ds).apps, ManualEntries(manual), DiscoveredEntries(manual, ds);
    ManualListed(manual);
    assert apps[..|m|] == m && apps[|m|..] == e;
    assert forall i :: 0 <= i < |m| ==> apps[i] == m[i];
    EntriesShow(Shown(manual, ds), NamesOf(m), Namer());
    EntriesOrigins(Shown(manual, ds), NamesOf(m), Namer());
    ShownSorted(manual, ds);
  }

  lemma ShownSorted(manual: seq<AppConfig>, ds: seq<DiscoveredApp>)
    ensures Sorting.Sorted(Shown(manual, ds), AppLeq())
    ensures multiset(Shown(manual, ds)) == multiset(Sorting.Filter(ds, Exposed(manual)))
  {
    AppOrder();
    Sorting.SortFilter(ds, AppLeq(), Exposed(manual));
    Sorting.SortSorts(Sorting.Filter(ds, Exposed(manual)), AppLeq());
  }

  /** Some discovered entry shows this app. */
  ghost predicate Shows(c: Catalog, d: DiscoveredApp) {
    exists e :: e in c.apps && e.source == Discovered && AppOf(e) == d
  }

  /** The apps shown are the discovered ones that no manual app shadows. */
  lemma ShownApps(manual: seq<AppConfig>, ds: seq<DiscoveredApp>, d: DiscoveredApp)
    ensures Shows(CatalogOf(manual, ds), d) <==> d in ds && d.origin !in ManualOrigins(manual)
  {
    var m, es, shown := ManualEntries(manual), DiscoveredEntries(manual, ds), Shown(manual, ds);
    ManualListed(manual);
    EntriesShow(shown, NamesOf(m), Namer());
    EntriesOrigins(shown, NamesOf(m), Namer());
    AppsMember(es, d);
    assert d in shown <==> d in Sorting.Filter(ds, Exposed(manual)) by {
      ShownSorted(manual, ds);
      assert d in shown <==> d in multiset(shown);
      assert d in Sorting.Filter(ds, Exposed(manual)) <==> d in multiset(Sorting.Filter(ds, Exposed(manual)));
    }
    Sorting.FilterMember(ds, Exposed(manual), d);
    assert forall e :: e in CatalogOf(manual, ds).apps && e.source == Discovered <==> e in es;
  }

  lemma {:induction false} ManualListed(manual: seq<AppConfig>)
    ensures |ManualEntries(manual)| == |manual|
    ensures forall i :: 0 <= i < |manual| ==> ManualEntries(manual)[i] == ManualEntry(manual[i])
  {
    if manual != [] {
      ManualListed(manual[..|manual| - 1]);
    }
  }

  // ---------------------------------------------------------------- distinct names and lookup

  ghost predicate DistinctNames(apps: seq<CatalogApp>) {
    forall i, j :: 0 <= i < j < |apps| ==> apps[i].name != apps[j].name
  }

  lemma {:induction false} EntriesDistinct(ds: seq<DiscoveredApp>, taken: set<string>, namer: NameRule)
    requires forall d, t :: namer(d, t) !in t
    ensures DistinctNames(Entries(ds, taken, namer))
    ensures forall e :: e in Entries(ds, taken, namer) ==> e.name !in taken
  {
    if ds != [] {
      var init, d := ds[..|ds| - 1], ds[|ds| - 1];
      EntriesDistinct(init, taken, namer);
      var r := Entries(init, taken, namer);
      assert forall i :: 0 <= i < |r| ==> r[i].name in NamesOf(r);
    }
  }

  lemma ConcatDistinct(a: seq<CatalogApp>, b: seq<CatalogApp>)
    requires DistinctNames(b) && forall e :: e in b ==> e.name !in NamesOf(a)
    ensures DistinctNames(a + b) <==> DistinctNames(a)
  {
    assert forall i :: 0 <= i < |a| ==> (a + b)[i] == a[i] && a[i].name in NamesOf(a);
    assert forall i :: |a| <= i < |a + b| ==> (a + b)[i] == b[i - |a|] && b[i - |a|] in b;
  }

  /** All names are distinct exactly when the manual names are. */
  lemma NamesDistinct(manual: seq<AppConfig>, ds: seq<DiscoveredApp>)
    ensures DistinctNames(CatalogOf(manual, ds).apps)
       <==> forall i, j :: 0 <= i < j < |manual| ==> manual[i].name != manual[j].name
  {
    var m := ManualEntries(manual);
    ManualListed(manual);
    EntriesDistinct(Shown(manual, ds), NamesOf(m), Namer());
    ConcatDistinct(m, DiscoveredEntries(manual, ds));
  }

  /** The first entry of that name. */
  method FindApp(c: Catalog, name: string) returns (r: Option<CatalogApp>)
    ensures r == Find(c.apps, name)
  {
    for i := 0 to |c.apps|
      invariant Find(c.apps, name) == Find(c.apps[i..], name)
    {
      if c.apps[i].name == name {
        return Some(c.apps[i]);
      }
    }
    return None;
  }

  function Find(apps: seq<CatalogApp>, name: string): (r: Option<CatalogApp>)
    ensures r.Some? ==> r.value in apps && r.value.name == name
    ensures r.None? <==> forall a :: a in apps ==> a.name != name
  {
    if apps == [] then None
    else if apps[0].name == name then Some(apps[0])
    else
      assert apps == [apps[0]] + apps[1..];
      Find(apps[1..], name)
  }

  /** With distinct names every entry is found under its own name. */
  lemma FindsEach(apps: seq<CatalogApp>, a: CatalogApp)
    requires DistinctNames(apps) && a in apps
    ensures Find(apps, a.name) == Some(a)
  {
  }

  // ---------------------------------------------------------------- routing

  /** The name and the remaining path of `/app/{name}/{rest}`. */
  function SplitRoute(path: string): Option<(string, string)> {
    if "/app/" <= path then
      var rest := path[|"/app/"|..];
      match SplitOnce(rest, '/')
      case Some(parts) => Some(parts)
      case None => Some((rest, ""))
    else None
  }

  /** A path built from a name and a rest splits back into them exactly when the name has no slash. */
  lemma RouteSplits(name: string, rest: string)
    ensures SplitRoute("/app/" + name + "/" + rest) == Some((name, rest)) <==> '/' !in name
    ensures SplitRoute("/app/" + name) == Some((name, "")) <==> '/' !in name
  {
    var path, tail := "/app/" + name + "/" + rest, name + "/" + rest;
    assert path == "/app/" + tail && path[|"/app/"|..] == tail;
    assert ("/app/" + name)[|"/app/"|..] == name;
    if '/' !in name {
      FindAt(name, '/', rest);
      assert tail == name + ['/'] + rest;
    } else {
      NoSlash(tail);
      NoSlash(name);
    }
  }

  /** A split name never has a slash. */
  lemma NoSlash(tail: string)
    ensures match SplitOnce(tail, '/') case Some((n, _)) => '/' !in n case None => '/' !in tail
  {
  }

  /** `pchar` of section 3.3 of RFC 3986, apart from percent-encoded octets. */
  predicate PathChar(c: char) { IsDigit(c) || IsLower(c) || IsUpper(c) || c in "-._~!$&'()*+,;=:@" }

  predicate HexDigit(c: char) { DigitValue(c).Some? }

  /** Path characters and percent-encoded octets, with slashes between segments if `slash`. */
  predicate PathText(s: string, slash: bool) {
    s == []
    || if s[0] == '%' then |s| >= 3 && HexDigit(s[1]) && HexDigit(s[2]) && PathText(s[3..], slash)
       else (PathChar(s[0]) || (slash && s[0] == '/')) && PathText(s[1..], slash)
  }

  /** What can be the path of a request; the handler reads it as it is, without decoding it. */
  predicate RequestPath(path: string) { path != [] && path[0] == '/' && PathText(path, true) }

  lemma {:induction false} PathConcat(a: string, b: string)
    requires PathText(a, true)
    ensures PathText(a + b, true) <==> PathText(b, true)
  {
    if a == [] {
      assert a + b == b;
    } else {
      var n := if a[0] == '%' then 3 else 1;
      PathConcat(a[n..], b);
      assert (a + b)[n..] == a[n..] + b;
    }
  }

  /** A segment of a path stands on its own: no percent-encoded octet reaches across a slash. */
  lemma {:induction false} FirstSegment(name: string, after: string)
    requires '/' !in name && PathText(name + after, true) && (after == [] || after[0] == '/')
    ensures PathText(name, false)
  {
    if name != [] {
      var t := name + after;
      assert t[0] == name[0];
      if name[0] == '%' {
        assert !HexDigit('/');
        assert forall i :: |name| <= i < |t| ==> t[i] == after[i - |name|];
        assert |name| >= 3;
        assert t[1] == name[1] && t[2] == name[2] && t[3..] == name[3..] + after;
        FirstSegment(name[3..], after);
      } else {
        assert t[1..] == name[1..] + after;
        FirstSegment(name[1..], after);
      }
    }
  }

  lemma {:induction false} SegmentIsPath(s: string)
    requires PathText(s, false)
    ensures PathText(s, true) && '/' !in s
  {
    if s != [] {
      var n := if s[0] == '%' then 3 else 1;
      SegmentIsPath(s[n..]);
      assert s == s[..n] + s[n..];
      assert !PathChar('/') && !HexDigit('/');
      assert s[0] != '/' && (n == 3 ==> s[1] != '/' && s[2] != '/');
    }
  }

  lemma AppPrefix()
    ensures PathText("/app/", true)
  {
    var s := "/app/";
    assert s[1..] == "app/" && s[1..][1..] == "pp/" && s[1..][1..][1..] == "p/" && s[1..][1..][1..][1..] == "/";
    assert "/"[1..] == [];
  }

  /** The name that a request path is split into is a segment. */
  lemma SplitNameIsSegment(path: string)
    requires RequestPath(path) && SplitRoute(path).Some?
    ensures PathText(SplitRoute(path).value.0, false)
  {
    var rest, name := path[|"/app/"|..], SplitRoute(path).value.0;
    assert path == "/app/" + rest;
    AppPrefix();
    PathConcat("/app/", rest);
    NoSlash(rest);
    assert rest == name + rest[|name|..];
    FirstSegment(name, rest[|name|..]);
  }

  /** A segment put between a path, a slash and the rest of a path. */
  lemma PathBetween(prefix: string, name: string, slash: string, rest: string)
    requires RequestPath(prefix) && PathText(name, false) && PathText(slash, true) && PathText(rest, true)
    ensures RequestPath(prefix + name + slash + rest)
  {
    SegmentIsPath(name);
    PathConcat(prefix, name);
    PathConcat(prefix + name, slash);
    PathConcat(prefix + name + slash, rest);
  }

  lemma BuiltPath(name: string, rest: string)
    requires PathText(name, false) && PathText(rest, true)
    ensures RequestPath("/app/" + name + "/" + rest)
    ensures SplitRoute("/app/" + name + "/" + rest) == Some((name, rest))
  {
    assert RequestPath("/app/" + name + "/" + rest) by {
      AppPrefix();
      assert "/"[1..] == [];
      PathBetween("/app/", name, "/", rest);
    }
    SegmentIsPath(name);
    RouteSplits(name, rest);
  }

  /** The app a path is routed to. */
  function Routed(apps: seq<CatalogApp>, path: string): Option<CatalogApp> {
    var parts := SplitRoute(path);
    if parts.Some? then Find(apps, parts.value.0) else None
  }

  predicate SlugText(s: string) { forall i :: 0 <= i < |s| ==> Names.SlugChar(s[i]) }

  lemma {:induction false} SlugIsSegment(s: string)
    requires SlugText(s)
    ensures PathText(s, false)
  {
    if s != [] {
      assert s[0] != '%' && PathChar(s[0]);
      SlugIsSegment(s[1..]);
    }
  }

  lemma NamerPlain(d: DiscoveredApp, taken: set<string>)
    ensures SlugText(Namer()(d, taken)) && Namer()(d, taken) != ""
  {
    assert SlugText(NameBase(d)) && NameBase(d) != "" by {
      if d.title.Some? { Names.SlugCanonical(d.title.value); }
      if d.process.Some? { Names.SlugCanonical(d.process.value); }
    }
  }

  lemma {:induction false} DiscoveredNamesPlain(ds: seq<DiscoveredApp>, taken: set<string>, namer: NameRule)
    requires forall d, t :: SlugText(namer(d, t)) && namer(d, t) != ""
    ensures forall e :: e in Entries(ds, taken, namer) ==> SlugText(e.name) && e.name != ""
  {
    if ds != [] {
      DiscoveredNamesPlain(ds[..|ds| - 1], taken, namer);
    }
  }

  lemma DiscoveredIsSegment(manual: seq<AppConfig>, ds: seq<DiscoveredApp>, a: CatalogApp)
    requires a in CatalogOf(manual, ds).apps && a.source == Discovered
    ensures PathText(a.name, false)
  {
    forall d, t ensures SlugText(Namer()(d, t)) && Namer()(d, t) != "" { NamerPlain(d, t); }
    DiscoveredNamesPlain(Shown(manual, ds), NamesOf(ManualEntries(manual)), Namer());
    ManualListed(manual);
    SlugIsSegment(a.name);
  }

  ghost predicate DistinctManual(manual: seq<AppConfig>) {
    forall i, j :: 0 <= i < j < |manual| ==> manual[i].name != manual[j].name
  }

  /** Some request path is routed to this app. */
  ghost predicate Reachable(apps: seq<CatalogApp>, a: CatalogApp) {
    exists path :: RequestPath(path) && Routed(apps, path) == Some(a)
  }

  lemma PathsReach(apps: seq<CatalogApp>, a: CatalogApp, rest: string)
    requires DistinctNames(apps) && a in apps && PathText(a.name, false) && PathText(rest, true)
    ensures
      var path := "/app/" + a.name + "/" + rest;
      RequestPath(path) && SplitRoute(path) == Some((a.name, rest)) && Routed(apps, path) == Some(a)
  {
    FindsEach(apps, a);
    BuiltPath(a.name, rest);
  }

  lemma ReachableIsSegment(apps: seq<CatalogApp>, a: CatalogApp)
    requires DistinctNames(apps) && a in apps
    ensures Reachable(apps, a) <==> PathText(a.name, false)
  {
    if PathText(a.name, false) {
      PathsReach(apps, a, "");
    }
    if path :| RequestPath(path) && Routed(apps, path) == Some(a) {
      SplitNameIsSegment(path);
    }
  }

  /** A catalog app is reached by some request path exactly when its name is a path segment, which
      every discovered name is; then every `/app/{name}/{rest}` reaches it with its rest. */
  lemma RouteReaches(manual: seq<AppConfig>, ds: seq<DiscoveredApp>, a: CatalogApp)
    requires DistinctManual(manual) && a in CatalogOf(manual, ds).apps
    ensures
      var apps := CatalogOf(manual, ds).apps;
      && (a.source == Discovered ==> PathText(a.name, false))
      && (Reachable(apps, a) <==> PathText(a.name, false))
      && (PathText(a.name, false) ==> forall rest | PathText(rest, true) ::
            var path := "/app/" + a.name + "/" + rest;
            RequestPath(path) && SplitRoute(path) == Some((a.name, rest)) && Routed(apps, path) == Some(a))
  {
    var apps := CatalogOf(manual, ds).apps;
    NamesDistinct(manual, ds);
    ReachableIsSegment(apps, a);
    if a.source == Discovered { DiscoveredIsSegment(manual, ds, a); }
    if PathText(a.name, false) {
      forall rest | PathText(rest, true)
        ensures
          var path := "/app/" + a.name + "/" + rest;
          RequestPath(path) && SplitRoute(path) == Some((a.name, rest)) && Routed(apps, path) == Some(a)
      {
        PathsReach(apps, a, rest);
      }
    }
  }

  /** An app whose name has a slash is reached by no path at all, well-formed or not. */
  lemma SlashedNameUnreachable(apps: seq<CatalogApp>, a: CatalogApp, path: string)
    requires '/' in a.name
    ensures Routed(apps, path) != Some(a)
  {
    if SplitRoute(path).Some? { NoSlash(path[|"/app/"|..]); }
  }

  /** The configuration check on manual apps: distinct names and non-zero ports. */
  ghost predicate AcceptedApps(manual: seq<AppConfig>) {
    DistinctManual(manual) && forall m :: m in manual ==> m.port != 0
  }

  /** Manual apps the check accepts and no request path reaches: a name with a slash, one cut at the
      query, one with a blank, and one with a percent sign that encodes nothing. */
  lemma UnreachableApps(name: string, ds: seq<DiscoveredApp>)
    requires name == "a/b" || name == "a?b" || name == "my app" || name == "100%"
    ensures
      var manual := [AppConfig(name, 3000)];
      && AcceptedApps(manual) && ManualEntry(manual[0]) in CatalogOf(manual, ds).apps
      && !Reachable(CatalogOf(manual, ds).apps, ManualEntry(manual[0]))
  {
    var manual := [AppConfig(name, 3000)];
    var a := ManualEntry(manual[0]);
    ManualListed(manual);
    assert a in ManualEntries(manual) by { assert ManualEntries(manual)[0] == a; }
    RouteReaches(manual, ds, a);
    NotSegments(name);
  }

  /** A segment has only path characters and percent signs, and no percent sign at its end. */
  lemma {:induction false} SegmentChars(s: string)
    requires PathText(s, false)
    ensures forall c :: c in s ==> PathChar(c) || c == '%'
    ensures s != [] ==> s[|s| - 1] != '%'
  {
    if s != [] {
      var n := if s[0] == '%' then 3 else 1;
      SegmentChars(s[n..]);
      assert s == s[..n] + s[n..];
      assert forall c :: HexDigit(c) ==> PathChar(c);
      assert forall i :: 0 <= i < n ==> PathChar(s[i]) || s[i] == '%';
    }
  }

  lemma NotSegments(name: string)
    requires name == "a/b" || name == "a?b" || name == "my app" || name == "100%"
    ensures !PathText(name, false)
  {
    assert !PathChar('/') && !PathChar('?') && !PathChar(' ');
    assert "a/b"[1] == '/' && "a?b"[1] == '?' && "my app"[2] == ' ' && "100%"[3] == '%';
    if PathText(name, false) { SegmentChars(name); }
  }
}
