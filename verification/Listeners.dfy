/** From the listening-socket table to candidate origins: merging, filtering and accounting. */
module Listeners {
  import opened Text
  import opened Origins
  import Sorting

  datatype Protocol = TCP | UDP
  datatype SocketState = Listen | OtherState

  /** An unattributed socket has no process name and pid 0. */
  datatype Listener = Listener(protocol: Protocol, state: SocketState, name: string, pid: nat, socket: SocketAddr)

  datatype Candidate = Candidate(origin: Origin, process: Option<string>, pid: Option<nat>)

  datatype SkipReason =
    | BelowMinPort | ExcludedPort | ExcludedProcess | NotLocalBind | ExcludedOrigin | Duplicate
    | NotCredible | Unreachable

  datatype Skipped = Skipped(origin: string, process: Option<string>, reason: SkipReason)

  datatype ListenerFilter = ListenerFilter(
    minPort: Port,
    loopbackOnly: bool,
    excludePorts: set<Port>,
    excludeProcesses: set<string>,
    excludeOrigins: set<Origin>)

  datatype FilterOutcome = FilterOutcome(candidates: seq<Candidate>, skipped: seq<Skipped>)

  /** The filter of a config. The lists are the built-in ones followed by the configured ones; process
      names compare in lower case and unreadable origins are ignored. */
  function NewFilter(minPort: Port, loopbackOnly: bool, ports: seq<Port>, processes: seq<string>, origins: seq<string>):
    ListenerFilter
  {
    ListenerFilter(minPort, loopbackOnly,
                   set p | p in ports,
                   set n | n in processes :: Lowercase(n),
                   set e | e in origins && ParseAuthority(e).Some? :: ParseAuthority(e).value)
  }

  // ---------------------------------------------------------------- one socket

  predicate Considered(l: Listener) { l.protocol == TCP && l.state == Listen && l.socket.port != 0 }

  function ProcessOf(l: Listener): Option<string> {
    var n := Trim(l.name);
    if n == [] then None else Some(n)
  }

  function OriginOf(l: Listener): Origin { Origin(LocalHost(l.socket), l.socket.port) }

  predicate IsLocalBind(a: SocketAddr) { Loopback(a.ip) || Unspecified(a.ip) }

  /** The first reason to skip a socket, looking at it alone. */
  function Objection(l: Listener, f: ListenerFilter): Option<SkipReason> {
    if l.socket.port < f.minPort then Some(BelowMinPort)
    else if l.socket.port in f.excludePorts then Some(ExcludedPort)
    else if ProcessOf(l).Some? && Lowercase(ProcessOf(l).value) in f.excludeProcesses then Some(ExcludedProcess)
    else if f.loopbackOnly && !IsLocalBind(l.socket) then Some(NotLocalBind)
    else if OriginOf(l) in f.excludeOrigins then Some(ExcludedOrigin)
    else None
  }

  predicate Passes(l: Listener, f: ListenerFilter) { Considered(l) && Objection(l, f).None? }

  function CandidateOf(l: Listener): Candidate {
    Candidate(OriginOf(l), ProcessOf(l), if l.pid != 0 then Some(l.pid) else None)
  }

  // ---------------------------------------------------------------- the table

  /** The origins of the sockets that pass. */
  function PassingOrigins(all: seq<Listener>, f: ListenerFilter): set<Origin> {
    set l | l in all && Passes(l, f) :: OriginOf(l)
  }

  /** The i-th socket passes and no earlier one that passes has its origin. */
  predicate Accepted(all: seq<Listener>, f: ListenerFilter, i: nat)
    requires i < |all|
  {
    Passes(all[i], f) && OriginOf(all[i]) !in PassingOrigins(all[..i], f)
  }

  function ReasonAt(all: seq<Listener>, f: ListenerFilter, i: nat): SkipReason
    requires i < |all|
  {
    if Objection(all[i], f).Some? then Objection(all[i], f).value else Duplicate
  }

  /** The accepted sockets as candidates, in table order. */
  function Candidates(all: seq<Listener>, f: ListenerFilter): seq<Candidate> {
    if all == [] then []
    else
      var n := |all| - 1;
      var r := Candidates(all[..n], f);
      if Accepted(all, f, n) then r + [CandidateOf(all[n])] else r
  }

  /** The other considered sockets with their reasons, in table order. */
  function Skips(all: seq<Listener>, f: ListenerFilter): seq<Skipped> {
    if all == [] then []
    else
      var n := |all| - 1;
      var r := Skips(all[..n], f);
      if Considered(all[n]) && !Accepted(all, f, n)
      then r + [Skipped(ShowSocket(all[n].socket), ProcessOf(all[n]), ReasonAt(all, f, n))]
      else r
  }

  function PortLeq(): (Candidate, Candidate) -> bool {
    (a: Candidate, b: Candidate) => a.origin.port <= b.origin.port
  }

  function SkipLeq(): (Skipped, Skipped) -> bool {
    (a: Skipped, b: Skipped) => TextLeq(a.origin, b.origin)
  }

  /** What a filtering pass returns: candidates ordered by port, skips by their address text. */
  function Outcome(all: seq<Listener>, f: ListenerFilter): FilterOutcome {
    FilterOutcome(Sorting.Sort(Candidates(all, f), PortLeq()), Sorting.Sort(Skips(all, f), SkipLeq()))
  }

  lemma PassingAppend(all: seq<Listener>, l: Listener, f: ListenerFilter)
    ensures PassingOrigins(all + [l], f) ==
            if Passes(l, f) then PassingOrigins(all, f) + {OriginOf(l)} else PassingOrigins(all, f)
  {
  }

  function OriginsOf(cs: seq<Candidate>): set<Origin> { set c | c in cs :: c.origin }

  /** An origin is some candidate's exactly when some passing socket has it. */
  lemma {:induction false} CandidateOrigins(all: seq<Listener>, f: ListenerFilter)
    ensures OriginsOf(Candidates(all, f)) == PassingOrigins(all, f)
  {
    if all != [] {
      var init, last := all[..|all| - 1], all[|all| - 1];
      CandidateOrigins(init, f);
      PassingAppend(init, last, f);
      assert all == init + [last];
      OriginsAppend(Candidates(init, f), CandidateOf(last));
    }
  }

  lemma OriginsAppend(cs: seq<Candidate>, c: Candidate)
    ensures OriginsOf(cs + [c]) == OriginsOf(cs) + {c.origin}
  {
  }

  lemma ReadOne(all: seq<Listener>, l: Listener, f: ListenerFilter)
    ensures Passes(l, f) && OriginOf(l) !in PassingOrigins(all, f) ==>
              Candidates(all + [l], f) == Candidates(all, f) + [CandidateOf(l)] && Skips(all + [l], f) == Skips(all, f)
    ensures Considered(l) && Objection(l, f).Some? ==>
              && Candidates(all + [l], f) == Candidates(all, f)
              && Skips(all + [l], f)
                 == Skips(all, f) + [Skipped(ShowSocket(l.socket), ProcessOf(l), Objection(l, f).value)]
    ensures Passes(l, f) && OriginOf(l) in PassingOrigins(all, f) ==>
              && Candidates(all + [l], f) == Candidates(all, f)
              && Skips(all + [l], f) == Skips(all, f) + [Skipped(ShowSocket(l.socket), ProcessOf(l), Duplicate)]
    ensures !Considered(l) ==> Candidates(all + [l], f) == Candidates(all, f) && Skips(all + [l], f) == Skips(all, f)
    ensures PassingOrigins(all + [l], f) ==
            if Passes(l, f) then PassingOrigins(all, f) + {OriginOf(l)} else PassingOrigins(all, f)
  {
    assert (all + [l])[..|all|] == all;
    PassingAppend(all, l, f);
  }

  method FilterListeners(all: seq<Listener>, f: ListenerFilter) returns (r: FilterOutcome)
    ensures r == Outcome(all, f)
  {
    var seen: set<Origin> := {};
    var out: seq<Candidate>, skipped: seq<Skipped> := [], [];
    for i := 0 to |all|
      invariant out == Candidates(all[..i], f) && skipped == Skips(all[..i], f)
      invariant seen == PassingOrigins(all[..i], f)
    {
      var l := all[i];
      assert all[..i + 1] == all[..i] + [l];
      ReadOne(all[..i], l, f);
      if l.protocol != TCP || l.state != Listen {
        continue;
      }
      var process := ProcessOf(l);
      var port := l.socket.port;
      if port == 0 {
        continue;
      }
      if port < f.minPort {
        skipped := skipped + [Skipped(ShowSocket(l.socket), process, BelowMinPort)];
        continue;
      }
      if port in f.excludePorts {
        skipped := skipped + [Skipped(ShowSocket(l.socket), process, ExcludedPort)];
        continue;
      }
      if process.Some? && Lowercase(process.value) in f.excludeProcesses {
        skipped := skipped + [Skipped(ShowSocket(l.socket), process, ExcludedProcess)];
        continue;
      }
      if f.loopbackOnly && !IsLocalBind(l.socket) {
        skipped := skipped + [Skipped(ShowSocket(l.socket), process, NotLocalBind)];
        continue;
      }
      var origin := Origin(LocalHost(l.socket), port);
      if origin in f.excludeOrigins {
        skipped := skipped + [Skipped(ShowSocket(l.socket), process, ExcludedOrigin)];
        continue;
      }
      assert Passes(l, f);
      if origin in seen {
        skipped := skipped + [Skipped(ShowSocket(l.socket), process, Duplicate)];
        continue;
      }
      seen := seen + {origin};
      out := out + [Candidate(origin, process, if l.pid != 0 then Some(l.pid) else None)];
    }
    assert all[..|all|] == all;
    r := FilterOutcome(Sorting.Sort(out, PortLeq()), Sorting.Sort(skipped, SkipLeq()));
  }

  // ---------------------------------------------------------------- accounting

  function ConsideredCount(all: seq<Listener>): nat {
    if all == [] then 0 else ConsideredCount(all[..|all| - 1]) + if Considered(all[|all| - 1]) then 1 else 0
  }

  /** Candidates have pairwise distinct origins. */
  ghost predicate DistinctOrigins(cs: seq<Candidate>) {
    forall i, j :: 0 <= i < j < |cs| ==> cs[i].origin != cs[j].origin
  }

  lemma {:induction false} CandidatesDistinct(all: seq<Listener>, f: ListenerFilter)
    ensures DistinctOrigins(Candidates(all, f))
  {
    if all != [] {
      var init, last := all[..|all| - 1], all[|all| - 1];
      CandidatesDistinct(init, f);
      CandidateOrigins(init, f);
      DistinctAppend(Candidates(init, f), CandidateOf(last));
    }
  }

  lemma DistinctAppend(cs: seq<Candidate>, c: Candidate)
    requires DistinctOrigins(cs)
    ensures c.origin !in OriginsOf(cs) ==> DistinctOrigins(cs + [c])
  {
  }

  /** Every listening TCP socket with a port is counted exactly once. */
  lemma {:induction false} EveryoneCounted(all: seq<Listener>, f: ListenerFilter)
    ensures |Candidates(all, f)| + |Skips(all, f)| == ConsideredCount(all)
  {
    if all != [] {
      EveryoneCounted(all[..|all| - 1], f);
    }
  }

  lemma {:induction false} SkipReported(all: seq<Listener>, f: ListenerFilter, i: nat)
    requires i < |all| && Considered(all[i]) && !Accepted(all, f, i)
    ensures Skipped(ShowSocket(all[i].socket), ProcessOf(all[i]), ReasonAt(all, f, i)) in Skips(all, f)
  {
    var n := |all| - 1;
    if i < n {
      assert all[..n][..i] == all[..i] && all[..n][i] == all[i];
      SkipReported(all[..n], f, i);
      assert Skips(all[..n], f) <= Skips(all, f);
    }
  }

  lemma {:induction false} CandidateReported(all: seq<Listener>, f: ListenerFilter, i: nat)
    requires i < |all| && Accepted(all, f, i)
    ensures CandidateOf(all[i]) in Candidates(all, f)
  {
    var n := |all| - 1;
    if i < n {
      assert all[..n][..i] == all[..i];
      CandidateReported(all[..n], f, i);
    }
  }

  lemma {:induction false} CandidateAccepted(all: seq<Listener>, f: ListenerFilter, c: Candidate)
    requires c in Candidates(all, f)
    ensures exists i :: 0 <= i < |all| && Accepted(all, f, i) && CandidateOf(all[i]) == c
  {
    var n := |all| - 1;
    if !(Accepted(all, f, n) && CandidateOf(all[n]) == c) {
      CandidateAccepted(all[..n], f, c);
      var i :| 0 <= i < n && Accepted(all[..n], f, i) && CandidateOf(all[..n][i]) == c;
      assert all[..n][..i] == all[..i] && all[..n][i] == all[i] && Accepted(all, f, i);
    }
  }

  /** The candidates are the accepted sockets, with their processes and pids. */
  lemma CandidatesAreAccepted(all: seq<Listener>, f: ListenerFilter, c: Candidate)
    ensures c in Outcome(all, f).candidates
       <==> exists i :: 0 <= i < |all| && Accepted(all, f, i) && CandidateOf(all[i]) == c
  {
    var cs, sorted := Candidates(all, f), Outcome(all, f).candidates;
    assert multiset(sorted) == multiset(cs) by {
      PortOrder();
      Sorting.SortSorts(cs, PortLeq());
    }
    if c in sorted {
      SameMembers(sorted, cs, c);
      CandidateAccepted(all, f, c);
    }
    if i :| 0 <= i < |all| && Accepted(all, f, i) && CandidateOf(all[i]) == c {
      CandidateReported(all, f, i);
      SameMembers(cs, sorted, c);
    }
  }

  lemma PortOrder()
    ensures Sorting.TotalPreorder(PortLeq())
  {
  }

  /** The i-th socket appears in the report: as a candidate, or as a skip with its reason, and then
      a duplicate's origin is some candidate's. */
  ghost predicate ReportedAt(all: seq<Listener>, f: ListenerFilter, i: nat, r: FilterOutcome)
    requires i < |all|
  {
    if Accepted(all, f, i) then CandidateOf(all[i]) in r.candidates
    else
      && Skipped(ShowSocket(all[i].socket), ProcessOf(all[i]), ReasonAt(all, f, i)) in r.skipped
      && (ReasonAt(all, f, i) == Duplicate ==> OriginOf(all[i]) in OriginsOf(r.candidates))
  }

  lemma DuplicateOfCandidate(all: seq<Listener>, f: ListenerFilter, i: nat)
    requires i < |all| && Considered(all[i]) && !Accepted(all, f, i) && ReasonAt(all, f, i) == Duplicate
    ensures OriginOf(all[i]) in OriginsOf(Candidates(all, f))
  {
    CandidateOrigins(all, f);
    assert Objection(all[i], f) != Some(Duplicate);
    assert Passes(all[i], f);
  }

  lemma Reports(all: seq<Listener>, f: ListenerFilter, i: nat, r: FilterOutcome)
    requires i < |all| && Considered(all[i])
    requires multiset(r.candidates) == multiset(Candidates(all, f)) && multiset(r.skipped) == multiset(Skips(all, f))
    ensures ReportedAt(all, f, i, r)
  {
    var cs, ss := Candidates(all, f), Skips(all, f);
    if Accepted(all, f, i) {
      CandidateReported(all, f, i);
      SameMembers(cs, r.candidates, CandidateOf(all[i]));
    } else {
      SkipReported(all, f, i);
      SameMembers(ss, r.skipped, Skipped(ShowSocket(all[i].socket), ProcessOf(all[i]), ReasonAt(all, f, i)));
      if ReasonAt(all, f, i) == Duplicate {
        DuplicateOfCandidate(all, f, i);
        var c :| c in cs && c.origin == OriginOf(all[i]);
        SameMembers(cs, r.candidates, c);
      }
    }
  }

  /** The report of a pass: the candidates and the skips are exactly the records of the listening
      TCP sockets with a port, one for each of them, as many equal ones as there are such sockets;
      candidates are ordered by port with distinct origins, and a duplicate's origin is some
      candidate's. */
  lemma FilterAccounts(all: seq<Listener>, f: ListenerFilter)
    ensures
      var r := Outcome(all, f);
      && multiset(r.candidates) == multiset(Candidates(all, f)) && multiset(r.skipped) == multiset(Skips(all, f))
      && |r.candidates| + |r.skipped| == ConsideredCount(all)
      && DistinctOrigins(r.candidates)
      && Sorting.Sorted(r.candidates, PortLeq())
      && forall i :: 0 <= i < |all| && Considered(all[i]) ==> ReportedAt(all, f, i, r)
  {
    var cs, ss, r := Candidates(all, f), Skips(all, f), Outcome(all, f);
    assert multiset(r.candidates) == multiset(cs) && Sorting.Sorted(r.candidates, PortLeq()) by {
      PortOrder();
      Sorting.SortSorts(cs, PortLeq());
    }
    assert multiset(r.skipped) == multiset(ss) by { SkipsPermuted(ss); }
    assert |r.candidates| + |r.skipped| == ConsideredCount(all) by {
      EveryoneCounted(all, f);
      assert |r.candidates| == |multiset(r.candidates)| == |cs| && |r.skipped| == |multiset(r.skipped)| == |ss|;
    }
    assert DistinctOrigins(r.candidates) by {
      CandidatesDistinct(all, f);
      DistinctPermuted(cs, r.candidates);
    }
    forall i | 0 <= i < |all| && Considered(all[i])
      ensures ReportedAt(all, f, i, r)
    {
      Reports(all, f, i, r);
    }
  }

  lemma SameMembers<T>(a: seq<T>, b: seq<T>, x: T)
    requires multiset(a) == multiset(b) && x in a
    ensures x in b
  {
    assert x in multiset(a);
  }

  lemma SkipsPermuted(ss: seq<Skipped>)
    ensures multiset(Sorting.Sort(ss, SkipLeq())) == multiset(ss)
  {
    TextOrder();
    assert Sorting.TotalPreorder(SkipLeq());
    Sorting.SortSorts(ss, SkipLeq());
  }

  lemma DistinctPermuted(a: seq<Candidate>, b: seq<Candidate>)
    requires multiset(a) == multiset(b) && DistinctOrigins(a)
    ensures DistinctOrigins(b)
  {
    forall i, j | 0 <= i < j < |b|
      ensures b[i].origin != b[j].origin
    {
      if b[i].origin == b[j].origin {
        SameMembers(b, a, b[i]);
        SameMembers(b, a, b[j]);
        assert b[i] == b[j];
        TwiceIn(b, i, j);
        Sorting.DistinctCounts(a, b[i]);
      }
    }
  }

  lemma TwiceIn<T>(s: seq<T>, i: nat, j: nat)
    requires i < j < |s| && s[i] == s[j]
    ensures multiset(s)[s[i]] >= 2
  {
    assert s == s[..j] + [s[j]] + s[j + 1..];
    assert s[..j][i] == s[i] && s[i] in s[..j];
  }

  // ---------------------------------------------------------------- unattributed sockets

  function Unattributed(a: SocketAddr): Listener { Listener(TCP, Listen, "", 0, a) }

  function Extras(extra: seq<SocketAddr>, known: set<SocketAddr>): seq<Listener> {
    if extra == [] then []
    else
      var r := Extras(extra[..|extra| - 1], known);
      if extra[|extra| - 1] in known then r else r + [Unattributed(extra[|extra| - 1])]
  }

  function Merged(attributed: seq<Listener>, extra: seq<SocketAddr>): seq<Listener> {
    attributed + Extras(extra, set l | l in attributed :: l.socket)
  }

  method MergeUnattributed(attributed: seq<Listener>, extra: seq<SocketAddr>) returns (r: seq<Listener>)
    ensures r == Merged(attributed, extra)
  {
    var known := set l | l in attributed :: l.socket;
    r := attributed;
    for i := 0 to |extra|
      invariant r == attributed + Extras(extra[..i], known)
    {
      assert extra[..i + 1][..i] == extra[..i];
      if extra[i] !in known {
        r := r + [Unattributed(extra[i])];
      }
    }
    assert extra[..|extra|] == extra;
  }

  lemma {:induction false} CandidatesExtend(a: seq<Listener>, b: seq<Listener>, f: ListenerFilter)
    ensures Candidates(a, f) <= Candidates(a + b, f)
  {
    if b == [] {
      assert a + b == a;
    } else {
      CandidatesExtend(a, b[..|b| - 1], f);
      assert (a + b)[..|a + b| - 1] == a + b[..|b| - 1];
    }
  }

  function HasOrigin(os: set<Origin>): Candidate -> bool {
    (c: Candidate) => c.origin in os
  }

  lemma NotAgain(a: seq<Candidate>, b: seq<Candidate>, x: Candidate)
    requires DistinctOrigins(a + b) && x in b
    ensures x.origin !in OriginsOf(a)
  {
    var j :| 0 <= j < |b| && b[j] == x;
    forall c | c in a
      ensures c.origin != x.origin
    {
      var i :| 0 <= i < |a| && a[i] == c;
      assert (a + b)[i] == c && (a + b)[|a| + j] == x;
    }
  }

  lemma KeepPrefix(a: seq<Candidate>, b: seq<Candidate>)
    requires DistinctOrigins(a + b)
    ensures Sorting.Filter(a + b, HasOrigin(OriginsOf(a))) == a
  {
    var p := HasOrigin(OriginsOf(a));
    Sorting.FilterConcat(a, b, p);
    assert Sorting.Filter(a, p) == a by { Sorting.FilterAll(a, p); }
    assert Sorting.Filter(b, p) == [] by {
      forall x | x in b
        ensures !p(x)
      {
        NotAgain(a, b, x);
      }
      Sorting.FilterNone(b, p);
    }
    assert a + [] == a;
  }

  /** Folding in unattributed sockets neither displaces nor alters a candidate: restricted to the
      origins that were candidates before, the merged list is the old list, in the same order and
      with the same processes and pids. */
  lemma MergeKeepsCandidates(attributed: seq<Listener>, extra: seq<SocketAddr>, f: ListenerFilter)
    ensures
      var before, after := Outcome(attributed, f).candidates, Outcome(Merged(attributed, extra), f).candidates;
      before == Sorting.Filter(after, HasOrigin(OriginsOf(Candidates(attributed, f))))
  {
    var a, all := Candidates(attributed, f), Candidates(Merged(attributed, extra), f);
    CandidatesExtend(attributed, Extras(extra, set l | l in attributed :: l.socket), f);
    var b := all[|a|..];
    assert all == a + b;
    CandidatesDistinct(Merged(attributed, extra), f);
    KeepPrefix(a, b);
    PortOrder();
    Sorting.SortFilter(all, PortLeq(), HasOrigin(OriginsOf(a)));
  }

  // ---------------------------------------------------------------- hiding

  function OtherThan(o: Origin): Candidate -> bool {
    (c: Candidate) => c.origin != o
  }

  lemma {:induction false} HideDropsOne(all: seq<Listener>, f: ListenerFilter, o: Origin)
    ensures
      var g := f.(excludeOrigins := f.excludeOrigins + {o});
      Candidates(all, g) == Sorting.Filter(Candidates(all, f), OtherThan(o))
  {
    var g := f.(excludeOrigins := f.excludeOrigins + {o});
    if all != [] {
      var n := |all| - 1;
      HideDropsOne(all[..n], f, o);
      assert forall l: Listener :: Passes(l, g) <==> Passes(l, f) && OriginOf(l) != o;
      Sorting.FilterAppend(Candidates(all[..n], f), CandidateOf(all[n]), OtherThan(o));
    }
  }

  /** Hiding an origin that discovery reported removes exactly that candidate from later passes. */
  lemma HideHides(all: seq<Listener>, minPort: Port, loopbackOnly: bool, ports: seq<Port>,
                  processes: seq<string>, origins: seq<string>, a: SocketAddr)
    requires a.port != 0
    ensures
      var o := Origin(LocalHost(a), a.port);
      var f := NewFilter(minPort, loopbackOnly, ports, processes, origins);
      var g := NewFilter(minPort, loopbackOnly, ports, processes, origins + [Authority(o)]);
      Outcome(all, g).candidates == Sorting.Filter(Outcome(all, f).candidates, OtherThan(o))
  {
    var o := Origin(LocalHost(a), a.port);
    var f := NewFilter(minPort, loopbackOnly, ports, processes, origins);
    var g := NewFilter(minPort, loopbackOnly, ports, processes, origins + [Authority(o)]);
    EmittedIsCanonical(a);
    assert g == f.(excludeOrigins := f.excludeOrigins + {o}) by {
      ExcludeOne(origins, Authority(o), o);
    }
    HideDropsOne(all, f, o);
    PortOrder();
    Sorting.SortFilter(Candidates(all, f), PortLeq(), OtherThan(o));
  }

  lemma ExcludeOne(origins: seq<string>, key: string, o: Origin)
    requires ParseAuthority(key) == Some(o)
    ensures
      (set e | e in origins + [key] && ParseAuthority(e).Some? :: ParseAuthority(e).value)
      == (set e | e in origins && ParseAuthority(e).Some? :: ParseAuthority(e).value) + {o}
  {
  }

  /** No candidate has an excluded origin. */
  lemma ExcludedNotCandidate(all: seq<Listener>, f: ListenerFilter, o: Origin)
    requires o in f.excludeOrigins
    ensures forall c :: c in Outcome(all, f).candidates ==> c.origin != o
  {
    CandidateOrigins(all, f);
    var cs := Candidates(all, f);
    assert o !in PassingOrigins(all, f);
    PortOrder();
    Sorting.SortSorts(cs, PortLeq());
    forall c | c in Outcome(all, f).candidates
      ensures c.origin in OriginsOf(cs)
    {
      SameMembers(Outcome(all, f).candidates, cs, c);
    }
  }
}
