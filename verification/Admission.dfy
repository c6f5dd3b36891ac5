/** Serving connections and their streams: the live-connection count, the per-device concurrency
    permits and the repeated authorization check, under any interleaving of connection tasks,
    stream tasks and changes of trust. */
module Admission {
  import opened Text
  import LimiterCache
  import Trust

  type NodeId = Trust.NodeId
  type Limiter = LimiterCache.Limiter

  const USIZE_MAX: nat := 0xFFFF_FFFF_FFFF_FFFF

  /** Where a connection task is: trusted, counted, waiting for a stream, holding a stream that has
      passed the trust check but is not spawned yet, or over. */
  datatype Stage = Admitted | Counted | Ready(limiter: Limiter) | Passed(limiter: Limiter) | Gone

  datatype Connection = Connection(node: NodeId, stage: Stage)

  /** A stream task: spawned, holding a permit while it waits for a rate token, inside
      `serve_stream`, and over. */
  datatype Phase = Spawned | Waiting | Serving | Over

  datatype Stream = Stream(node: NodeId, limiter: Limiter, phase: Phase)

  datatype Semaphore = Semaphore(capacity: nat, available: nat)

  /** `caps` is the configured number of concurrent streams, by config version. */
  datatype State = State(
    caps: nat -> nat,
    authorized: set<NodeId>,
    active: nat,
    connections: map<nat, Connection>,
    streams: map<nat, Stream>,
    limiters: map<Limiter, Semaphore>)

  /** Everything that can happen next. `Assign` names the limiter that the cache hands out. */
  datatype Action =
    | Connect(c: nat, node: NodeId)
    | Count(c: nat)
    | Assign(c: nat, node: NodeId, limiter: Limiter)
    | AcceptStream(c: nat)
    | Spawn(c: nat, st: nat)
    | Disconnect(c: nat)
    | Acquire(st: nat)
    | RateToken(st: nat)
    | EndStream(st: nat)
    | Authorize(node: NodeId)
    | Revoke(node: NodeId)

  predicate Holding(p: Phase) { p.Waiting? || p.Serving? }

  /** Counted and not over. */
  predicate IsLive(g: Stage) { g.Counted? || g.Ready? || g.Passed? }

  predicate Enabled(s: State, a: Action) {
    match a
    case Connect(c, _) => c !in s.connections
    case Count(c) => c in s.connections && s.connections[c].stage.Admitted?
    case Assign(c, node, _) => c in s.connections && s.connections[c].stage.Counted? && s.connections[c].node == node
    case AcceptStream(c) => c in s.connections && s.connections[c].stage.Ready?
    case Spawn(c, st) => c in s.connections && s.connections[c].stage.Passed? && st !in s.streams
    case Disconnect(c) => c in s.connections && !s.connections[c].stage.Gone?
    case Acquire(st) => st in s.streams && s.streams[st].phase == Spawned && s.streams[st].limiter in s.limiters
    case RateToken(st) => st in s.streams && s.streams[st].phase == Waiting
    case EndStream(st) => st in s.streams && Holding(s.streams[st].phase) && s.streams[st].limiter in s.limiters
    case Authorize(_) => true
    case Revoke(_) => true
  }

  /** `fetch_sub` on the counter wraps around below zero. */
  function FetchSub(n: nat): nat { if n == 0 then USIZE_MAX else n - 1 }

  function SetStage(s: State, c: nat, g: Stage): State
    requires c in s.connections
  {
    s.(connections := s.connections[c := s.connections[c].(stage := g)])
  }

  /** The guard of a counted connection decrements the counter, however the connection ends. */
  function Close(s: State, c: nat): State
    requires c in s.connections
  {
    var t := SetStage(s, c, Gone);
    if IsLive(s.connections[c].stage) then t.(active := FetchSub(s.active)) else t
  }

  function NewSemaphore(s: State, l: Limiter): Semaphore { Semaphore(s.caps(l.version), s.caps(l.version)) }

  function Next(s: State, a: Action): State
    requires Enabled(s, a)
  {
    match a
    case Connect(c, node) =>
      if node !in s.authorized then s else s.(connections := s.connections[c := Connection(node, Admitted)])
    case Count(c) => SetStage(s, c, Counted).(active := s.active + 1)
    case Assign(c, _, l) =>
      SetStage(s, c, Ready(l)).(limiters := if l in s.limiters then s.limiters else s.limiters[l := NewSemaphore(s, l)])
    case AcceptStream(c) =>
      if s.connections[c].node !in s.authorized then Close(s, c)
      else SetStage(s, c, Passed(s.connections[c].stage.limiter))
    case Spawn(c, st) =>
      var l := s.connections[c].stage.limiter;
      SetStage(s, c, Ready(l)).(streams := s.streams[st := Stream(s.connections[c].node, l, Spawned)])
    case Disconnect(c) => Close(s, c)
    case Acquire(st) =>
      var stream := s.streams[st];
      var sem := s.limiters[stream.limiter];
      if sem.available == 0 then s.(streams := s.streams[st := stream.(phase := Over)])
      else
        s.(streams := s.streams[st := stream.(phase := Waiting)],
           limiters := s.limiters[stream.limiter := sem.(available := sem.available - 1)])
    case RateToken(st) => s.(streams := s.streams[st := s.streams[st].(phase := Serving)])
    case EndStream(st) =>
      var stream := s.streams[st];
      var sem := s.limiters[stream.limiter];
      s.(streams := s.streams[st := stream.(phase := Over)],
         limiters := s.limiters[stream.limiter := sem.(available := sem.available + 1)])
    case Authorize(node) => s.(authorized := s.authorized + {node})
    case Revoke(node) => s.(authorized := s.authorized - {node})
  }

  function Play(s: State, run: seq<Action>): Option<State> {
    if run == [] then Some(s)
    else
      match Play(s, run[..|run| - 1])
      case None => None
      case Some(t) => if Enabled(t, run[|run| - 1]) then Some(Next(t, run[|run| - 1])) else None
  }

  function Start(authorized: set<NodeId>, caps: nat -> nat): State { State(caps, authorized, 0, map[], map[], map[]) }

  // ---------------------------------------------------------------- invariants

  function Live(s: State): set<nat> {
    set c | c in s.connections && IsLive(s.connections[c].stage)
  }

  /** The streams holding a permit of a limiter. */
  function Holders(s: State, l: Limiter): set<nat> {
    set st | st in s.streams && s.streams[st].limiter == l && Holding(s.streams[st].phase)
  }

  ghost predicate PermitsCounted(s: State, l: Limiter)
    requires l in s.limiters
  {
    && s.limiters[l].capacity == s.caps(l.version)
    && s.limiters[l].available + |Holders(s, l)| == s.limiters[l].capacity
  }

  /** Nobody uses a limiter that does not exist. */
  ghost predicate LimitersKnown(s: State) {
    && (forall st :: st in s.streams ==> s.streams[st].limiter in s.limiters)
    && (forall c :: c in s.connections && (s.connections[c].stage.Ready? || s.connections[c].stage.Passed?) ==>
          s.connections[c].stage.limiter in s.limiters)
  }

  ghost predicate Inv(s: State) {
    && s.active == |Live(s)|
    && (forall l :: l in s.limiters ==> PermitsCounted(s, l))
    && LimitersKnown(s)
  }

  /** Moving one stream to another phase moves it in or out of the holders of its own limiter. */
  lemma HoldersMove(s: State, st: nat, phase: Phase, l: Limiter)
    requires st in s.streams
    ensures
      var t := s.(streams := s.streams[st := s.streams[st].(phase := phase)]);
      Holders(t, l) ==
      if s.streams[st].limiter != l then Holders(s, l)
      else if Holding(phase) then Holders(s, l) + {st} else Holders(s, l) - {st}
  {
  }

  lemma AcquirePermits(s: State, st: nat, l: Limiter)
    requires Enabled(s, Acquire(st)) && l in s.limiters && PermitsCounted(s, l)
    ensures PermitsCounted(Next(s, Acquire(st)), l)
  {
    var next := if s.limiters[s.streams[st].limiter].available == 0 then Over else Waiting;
    HoldersMove(s, st, next, l);
    assert Holders(Next(s, Acquire(st)), l)
        == Holders(s.(streams := s.streams[st := s.streams[st].(phase := next)]), l);
    assert st !in Holders(s, l);
  }

  lemma EndPermits(s: State, st: nat, l: Limiter)
    requires Enabled(s, EndStream(st)) && l in s.limiters && PermitsCounted(s, l)
    ensures PermitsCounted(Next(s, EndStream(st)), l)
  {
    HoldersMove(s, st, Over, l);
    assert Holders(Next(s, EndStream(st)), l)
        == Holders(s.(streams := s.streams[st := s.streams[st].(phase := Over)]), l);
    assert s.streams[st].limiter == l ==> st in Holders(s, l);
  }

  lemma QuietHolders(s: State, a: Action, l: Limiter)
    requires Enabled(s, a) && !a.Acquire? && !a.EndStream?
    ensures Holders(Next(s, a), l) == Holders(s, l)
  {
  }

  /** A step either leaves a limiter's permits alone or moves one stream in or out. */
  lemma PermitsStep(s: State, a: Action, l: Limiter)
    requires Enabled(s, a) && l in s.limiters && PermitsCounted(s, l)
    ensures PermitsCounted(Next(s, a), l)
  {
    if a.Acquire? {
      AcquirePermits(s, a.st, l);
    } else if a.EndStream? {
      EndPermits(s, a.st, l);
    } else {
      QuietHolders(s, a, l);
    }
  }

  /** Changing one connection's stage moves it in or out of the live ones. */
  lemma LiveMove(s: State, c: nat, g: Stage)
    requires c in s.connections
    ensures Live(SetStage(s, c, g)) == if IsLive(g) then Live(s) + {c} else Live(s) - {c}
  {
  }

  predicate OfConnection(a: Action) {
    a.Connect? || a.Count? || a.Assign? || a.AcceptStream? || a.Spawn? || a.Disconnect?
  }

  /** What a connection's step does to its stage and to the counter. */
  lemma StageStep(s: State, a: Action)
    requires Enabled(s, a) && OfConnection(a) && !a.Connect?
    ensures
      var t := Next(s, a);
      && a.c in t.connections && t.connections == SetStage(s, a.c, t.connections[a.c].stage).connections
      && var was, now := IsLive(s.connections[a.c].stage), IsLive(t.connections[a.c].stage);
         t.active == if was == now then s.active else if now then s.active + 1 else FetchSub(s.active)
  {
  }

  lemma ActiveStep(s: State, a: Action)
    requires s.active == |Live(s)| && Enabled(s, a)
    ensures Next(s, a).active == |Live(Next(s, a))|
  {
    var t := Next(s, a);
    if a.Connect? || !OfConnection(a) {
      QuietActive(s, a);
    } else {
      var live, c := Live(s), a.c;
      assert Live(t) == if IsLive(t.connections[c].stage) then live + {c} else live - {c} by {
        StageStep(s, a);
        LiveMove(s, c, t.connections[c].stage);
        assert Live(t) == Live(SetStage(s, c, t.connections[c].stage));
      }
      StageStep(s, a);
      Sizes(live, c);
      assert IsLive(s.connections[c].stage) <==> c in live;
    }
  }

  lemma Sizes(s: set<nat>, c: nat)
    ensures if c in s then |s - {c}| == |s| - 1 && s + {c} == s else |s + {c}| == |s| + 1 && s - {c} == s
  {
  }

  lemma QuietActive(s: State, a: Action)
    requires Enabled(s, a) && (a.Connect? || !OfConnection(a))
    ensures Next(s, a).active == s.active && Live(Next(s, a)) == Live(s)
  {
  }

  lemma LimitersStay(s: State, a: Action)
    requires Enabled(s, a) && LimitersKnown(s)
    ensures LimitersKnown(Next(s, a))
  {
  }

  lemma NextKeepsInv(s: State, a: Action)
    requires Inv(s) && Enabled(s, a)
    ensures Inv(Next(s, a))
  {
    ActiveStep(s, a);
    forall l | l in Next(s, a).limiters
      ensures PermitsCounted(Next(s, a), l)
    {
      if l in s.limiters {
        PermitsStep(s, a, l);
      } else {
        assert Holders(s, l) == {};
        QuietHolders(s, a, l);
      }
    }
    LimitersStay(s, a);
  }

  lemma {:induction false} PlayKeepsInv(authorized: set<NodeId>, caps: nat -> nat, run: seq<Action>)
    requires Play(Start(authorized, caps), run).Some?
    ensures Inv(Play(Start(authorized, caps), run).value) && Play(Start(authorized, caps), run).value.caps == caps
  {
    var s := Start(authorized, caps);
    if run == [] {
      assert Live(s) == {};
    } else {
      PlayKeepsInv(authorized, caps, run[..|run| - 1]);
      NextKeepsInv(Play(s, run[..|run| - 1]).value, run[|run| - 1]);
    }
  }

  // ---------------------------------------------------------------- caps

  function ServingOn(s: State, l: Limiter): set<nat> {
    set st | st in s.streams && s.streams[st].limiter == l && s.streams[st].phase == Serving
  }

  function ServingFor(s: State, node: NodeId): set<nat> {
    set st | st in s.streams && s.streams[st].node == node && s.streams[st].phase == Serving
  }

  /** In every interleaving, no limiter serves more streams than the cap of the config it was built
      from, and the counter is the number of live connections, so it never wraps below zero. */
  lemma CapHolds(authorized: set<NodeId>, caps: nat -> nat, run: seq<Action>, l: Limiter)
    requires Play(Start(authorized, caps), run).Some?
    ensures
      var s := Play(Start(authorized, caps), run).value;
      s.active == |Live(s)| && |ServingOn(s, l)| <= caps(l.version)
  {
    PlayKeepsInv(authorized, caps, run);
    var s := Play(Start(authorized, caps), run).value;
    if l in s.limiters {
      assert PermitsCounted(s, l);
      Trust.SubsetSmaller(ServingOn(s, l), Holders(s, l));
    } else {
      assert ServingOn(s, l) == {};
    }
  }

  /** Every connection of this device was handed this limiter, as it is while no reload happens. */
  ghost predicate OneLimiter(run: seq<Action>, node: NodeId, l: Limiter) {
    forall k :: 0 <= k < |run| && run[k].Assign? && run[k].node == node ==> run[k].limiter == l
  }

  ghost predicate UsesLimiter(s: State, node: NodeId, l: Limiter) {
    && (forall c :: c in s.connections && s.connections[c].node == node ==>
          var g := s.connections[c].stage;
          (g.Ready? || g.Passed?) ==> g.limiter == l)
    && (forall st :: st in s.streams && s.streams[st].node == node ==> s.streams[st].limiter == l)
  }

  lemma UsesLimiterStep(s: State, a: Action, node: NodeId, l: Limiter)
    requires UsesLimiter(s, node, l) && Enabled(s, a)
    requires a.Assign? && a.node == node ==> a.limiter == l
    ensures UsesLimiter(Next(s, a), node, l)
  {
  }

  lemma {:induction false} StreamsUseLimiter(s: State, run: seq<Action>, node: NodeId, l: Limiter)
    requires UsesLimiter(s, node, l) && Play(s, run).Some? && OneLimiter(run, node, l)
    ensures UsesLimiter(Play(s, run).value, node, l)
  {
    if run != [] {
      var p := run[..|run| - 1];
      assert forall k :: 0 <= k < |p| ==> p[k] == run[k];
      StreamsUseLimiter(s, p, node, l);
      UsesLimiterStep(Play(s, p).value, run[|run| - 1], node, l);
    }
  }

  /** When all connections of a device share a limiter, its cap bounds the device over all of them. */
  lemma CapHoldsPerDevice(authorized: set<NodeId>, caps: nat -> nat, run: seq<Action>, node: NodeId, l: Limiter)
    requires Play(Start(authorized, caps), run).Some? && OneLimiter(run, node, l)
    ensures |ServingFor(Play(Start(authorized, caps), run).value, node)| <= caps(l.version)
  {
    var s := Play(Start(authorized, caps), run).value;
    CapHolds(authorized, caps, run, l);
    StreamsUseLimiter(Start(authorized, caps), run, node, l);
    Trust.SubsetSmaller(ServingFor(s, node), ServingOn(s, l));
  }

  /** Every connection got its limiter from a lookup of its device that the cache answered. */
  ghost predicate FromCache(run: seq<Action>, v: LimiterCache.State) {
    forall k :: 0 <= k < |run| && run[k].Assign? ==> exists t :: Answered(v, t, run[k].node, run[k].limiter)
  }

  ghost predicate Answered(v: LimiterCache.State, t: LimiterCache.Thread, node: NodeId, l: Limiter) {
    && t in v.callers && v.callers[t].pc == LimiterCache.Finished && v.callers[t].node == node
    && v.callers[t].got == Some(l)
  }

  lemma CacheGivesOne(lookups: seq<LimiterCache.Action>, run: seq<Action>, k: nat)
    requires LimiterCache.Play(LimiterCache.Init, lookups).Some? && LimiterCache.NoReload(lookups)
    requires FromCache(run, LimiterCache.Play(LimiterCache.Init, lookups).value)
    requires k < |run| && run[k].Assign?
    ensures OneLimiter(run, run[k].node, run[k].limiter) && run[k].limiter.version == 0
  {
    var v := LimiterCache.Play(LimiterCache.Init, lookups).value;
    var t :| Answered(v, t, run[k].node, run[k].limiter);
    LimiterCache.OneLimiterPerDevice(lookups, t, t);
    forall j | 0 <= j < |run| && run[j].Assign? && run[j].node == run[k].node
      ensures run[j].limiter == run[k].limiter
    {
      var u :| Answered(v, u, run[j].node, run[j].limiter);
      LimiterCache.OneLimiterPerDevice(lookups, t, u);
    }
  }

  /** The two protocols together: with the limiters the cache hands out while no reload happens,
      however its lookups interleave, each device's streams over all its connections stay within
      the number of concurrent streams that the config in force sets. */
  lemma CapHoldsWithoutReload(lookups: seq<LimiterCache.Action>, authorized: set<NodeId>, caps: nat -> nat,
                              run: seq<Action>, node: NodeId)
    requires LimiterCache.Play(LimiterCache.Init, lookups).Some? && LimiterCache.NoReload(lookups)
    requires FromCache(run, LimiterCache.Play(LimiterCache.Init, lookups).value)
    requires Play(Start(authorized, caps), run).Some?
    ensures |ServingFor(Play(Start(authorized, caps), run).value, node)| <= caps(0)
  {
    if k :| 0 <= k < |run| && run[k].Assign? && run[k].node == node {
      CacheGivesOne(lookups, run, k);
      CapHoldsPerDevice(authorized, caps, run, node, run[k].limiter);
    } else {
      CapHoldsPerDevice(authorized, caps, run, node, LimiterCache.Limiter.Limiter(0, 0));
    }
  }

  // ---------------------------------------------------------------- revocation

  function StreamsOf(s: State, node: NodeId): set<nat> {
    set st | st in s.streams && s.streams[st].node == node
  }

  /** The connections of a device that hold a stream past the trust check. */
  function PassedOf(s: State, node: NodeId): set<nat> {
    set c | c in s.connections && s.connections[c].node == node && s.connections[c].stage.Passed?
  }

  /** What one step does to a device without trust: a passed stream is spawned or dropped. */
  lemma UntrustedStep(s: State, a: Action, node: NodeId)
    requires Enabled(s, a) && node !in s.authorized && a != Authorize(node)
    ensures
      var t := Next(s, a);
      && node !in t.authorized
      && if a.Spawn? && a.c in PassedOf(s, node) then
           StreamsOf(t, node) == StreamsOf(s, node) + {a.st} && PassedOf(t, node) == PassedOf(s, node) - {a.c}
         else StreamsOf(t, node) == StreamsOf(s, node) && PassedOf(t, node) <= PassedOf(s, node)
  {
  }

  lemma UntrustedCount(s: State, a: Action, node: NodeId)
    requires Enabled(s, a) && node !in s.authorized && a != Authorize(node)
    ensures
      var t := Next(s, a);
      && node !in t.authorized && StreamsOf(s, node) <= StreamsOf(t, node)
      && |StreamsOf(t, node)| + |PassedOf(t, node)| <= |StreamsOf(s, node)| + |PassedOf(s, node)|
  {
    UntrustedStep(s, a, node);
    Trust.SubsetSmaller(PassedOf(Next(s, a), node), PassedOf(s, node));
  }

  lemma {:induction false} UntrustedRun(s: State, run: seq<Action>, node: NodeId)
    requires Play(s, run).Some? && node !in s.authorized
    requires forall k :: 0 <= k < |run| ==> run[k] != Authorize(node)
    ensures
      var t := Play(s, run).value;
      && node !in t.authorized && StreamsOf(s, node) <= StreamsOf(t, node)
      && |StreamsOf(t, node)| + |PassedOf(t, node)| <= |StreamsOf(s, node)| + |PassedOf(s, node)|
  {
    if run != [] {
      var p := run[..|run| - 1];
      assert forall k :: 0 <= k < |p| ==> p[k] == run[k];
      UntrustedRun(s, p, node);
      UntrustedCount(Play(s, p).value, run[|run| - 1], node);
    }
  }

  lemma DifferenceSize<T>(a: set<T>, b: set<T>)
    requires a <= b
    ensures |b - a| == |b| - |a|
  {
    assert b == a + (b - a);
  }

  /** A device that lost its trust opens no further stream, on old connections or new ones, until it
      is trusted again, except those that had passed the check when the trust went: at most one for
      each such connection. */
  lemma RevokedOpensNothing(s: State, run: seq<Action>, node: NodeId)
    requires Play(s, run).Some? && node !in s.authorized
    requires forall k :: 0 <= k < |run| ==> run[k] != Authorize(node)
    ensures
      var t := Play(s, run).value;
      && node !in t.authorized && StreamsOf(s, node) <= StreamsOf(t, node)
      && |StreamsOf(t, node) - StreamsOf(s, node)| <= |PassedOf(s, node)|
      && (PassedOf(s, node) == {} ==> StreamsOf(t, node) == StreamsOf(s, node))
  {
    UntrustedRun(s, run, node);
    DifferenceSize(StreamsOf(s, node), StreamsOf(Play(s, run).value, node));
    if PassedOf(s, node) == {} {
      assert StreamsOf(Play(s, run).value, node) - StreamsOf(s, node) == {};
    }
  }

  /** The exception is real: a revocation between the check and the spawn comes too late. */
  lemma LateStreamOpens(s: State, c: nat, st: nat)
    requires c in s.connections && s.connections[c].stage.Passed? && st !in s.streams
    ensures
      var node := s.connections[c].node;
      var run := [Revoke(node)] + [Spawn(c, st)];
      && Play(s, run).Some?
      && var t := Play(s, run).value;
         node !in t.authorized && st in StreamsOf(t, node)
  {
    var node := s.connections[c].node;
    var run := [Revoke(node)] + [Spawn(c, st)];
    assert Play(s, [Revoke(node)]) == Some(Next(s, Revoke(node))) by { assert [Revoke(node)][..0] == []; }
    assert run[..1] == [Revoke(node)] && run[1] == Spawn(c, st);
  }

  /** A connection keeps its device, and once over it stays over. */
  lemma ConnectionStep(s: State, a: Action, c: nat)
    requires Enabled(s, a) && c in s.connections
    ensures
      var t := Next(s, a);
      && c in t.connections && t.connections[c].node == s.connections[c].node
      && (s.connections[c].stage.Gone? ==> t.connections[c].stage.Gone?)
  {
  }

  lemma {:induction false} ConnectionStays(s: State, run: seq<Action>, c: nat)
    requires Play(s, run).Some? && c in s.connections
    ensures
      var t := Play(s, run).value;
      c in t.connections && t.connections[c].node == s.connections[c].node
  {
    if run != [] {
      ConnectionStays(s, run[..|run| - 1], c);
      ConnectionStep(Play(s, run[..|run| - 1]).value, run[|run| - 1], c);
    }
  }

  /** A revoked device's connection on which a stream arrives is over from then on. */
  lemma {:induction false} RevokedConnectionCloses(s: State, run: seq<Action>, c: nat, k: nat)
    requires Play(s, run).Some? && c in s.connections && s.connections[c].node !in s.authorized
    requires forall j :: 0 <= j < |run| ==> run[j] != Authorize(s.connections[c].node)
    requires k < |run| && run[k] == AcceptStream(c)
    ensures
      var t := Play(s, run).value;
      c in t.connections && t.connections[c].stage.Gone? && c !in Live(t)
  {
    var p, a := run[..|run| - 1], run[|run| - 1];
    assert forall j :: 0 <= j < |p| ==> p[j] == run[j];
    var u := Play(s, p).value;
    ConnectionStays(s, p, c);
    if k == |p| {
      RevokedOpensNothing(s, p, s.connections[c].node);
    } else {
      RevokedConnectionCloses(s, p, c, k);
      ConnectionStep(u, a, c);
    }
  }
}
