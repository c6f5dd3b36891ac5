/** The per-device limiter cache against config reloads.

    Arbitrarily many lookups and reloads interleave; every atomic load, locked section and write is
    a step of its own, under sequential consistency. A config is identified by how many writes
    preceded it. `floors` and `completed` are history: the config version at each bump of the
    generation, and the newest version written by a reload that has finished. */
module LimiterCache {
  import opened Text
  import Trust

  type NodeId = Trust.NodeId
  type Thread = nat

  datatype Limiter = Limiter(id: nat, version: nat)

  datatype Pc =
    | LoadConfigGen | LoadLimiterGen
    | LockCache | Recheck | Clear | Store | UnlockCache
    | ReadConfig | LockForInsert | Insert | UnlockInserted | ReleaseConfig | Finished

  /** A lookup: `current` is the generation it loaded, `due` the newest config a reload had
      installed and announced when the lookup began. */
  datatype Caller = Caller(node: NodeId, pc: Pc, current: nat, due: nat, got: Option<Limiter>)

  /** A reload: it writes the config, then bumps the generation. */
  datatype Reload = Writing | Bumping(wrote: nat) | Reloaded(wrote: nat)

  datatype State = State(
    version: nat,
    gen: nat,
    floors: seq<nat>,
    completed: nat,
    limiterGen: nat,
    cache: map<NodeId, Limiter>,
    nextId: nat,
    mutex: Option<Thread>,
    readers: set<Thread>,
    callers: map<Thread, Caller>,
    reloads: map<Thread, Reload>)

  const Init: State := State(0, 0, [0], 0, 0, map[], 0, None, {}, map[], map[])

  datatype Action =
    | BeginLookup(t: Thread, node: NodeId)
    | Advance(t: Thread)
    | BeginReload(t: Thread)
    | AdvanceReload(t: Thread)

  predicate Enabled(s: State, a: Action) {
    match a
    case BeginLookup(t, _) => t in s.callers ==> s.callers[t].pc == Finished
    case Advance(t) =>
      && t in s.callers && s.callers[t].pc != Finished
      && (s.callers[t].pc.LockCache? || s.callers[t].pc.LockForInsert? ==> s.mutex == None)
    case BeginReload(t) => t in s.reloads ==> s.reloads[t].Reloaded?
    case AdvanceReload(t) =>
      t in s.reloads && !s.reloads[t].Reloaded? && (s.reloads[t].Writing? ==> s.readers == {})
  }

  function Max(a: nat, b: nat): nat { if a > b then a else b }

  /** The first half of a lookup: drop the cache when the generation has moved. */
  predicate Checking(pc: Pc) {
    || pc.LoadConfigGen? || pc.LoadLimiterGen?
    || pc.LockCache? || pc.Recheck? || pc.Clear? || pc.Store? || pc.UnlockCache?
  }

  /** A step of the first half, apart from recording the caller's own new position. */
  function Check(s: State, t: Thread, c: Caller): (State, Caller)
    requires Checking(c.pc)
  {
    match c.pc
    case LoadConfigGen => (s, c.(current := s.gen, pc := LoadLimiterGen))
    case LoadLimiterGen => (s, c.(pc := if c.current != s.limiterGen then LockCache else ReadConfig))
    case LockCache => (s.(mutex := Some(t)), c.(pc := Recheck))
    case Recheck => (s, c.(pc := if s.limiterGen != c.current then Clear else UnlockCache))
    case Clear => (s.(cache := map[]), c.(pc := Store))
    case Store => (s.(limiterGen := c.current), c.(pc := UnlockCache))
    case UnlockCache => (s.(mutex := None), c.(pc := ReadConfig))
  }

  /** A step of the second half: find or insert the limiter while the config is held for reading. */
  function Serve(s: State, t: Thread, c: Caller): (State, Caller)
    requires !Checking(c.pc)
  {
    match c.pc
    case ReadConfig => (s.(readers := s.readers + {t}), c.(pc := LockForInsert))
    case LockForInsert => (s.(mutex := Some(t)), c.(pc := Insert))
    case Insert =>
      if c.node in s.cache then (s, c.(got := Some(s.cache[c.node]), pc := UnlockInserted))
      else
        var l := Limiter(s.nextId, s.version);
        (s.(cache := s.cache[c.node := l], nextId := s.nextId + 1), c.(got := Some(l), pc := UnlockInserted))
    case UnlockInserted => (s.(mutex := None), c.(pc := ReleaseConfig))
    case ReleaseConfig => (s.(readers := s.readers - {t}), c.(pc := Finished))
    case Finished => (s, c)
  }

  function Effect(s: State, t: Thread, c: Caller): (State, Caller) {
    if Checking(c.pc) then Check(s, t, c) else Serve(s, t, c)
  }

  function Next(s: State, a: Action): State
    requires Enabled(s, a)
  {
    match a
    case BeginLookup(t, node) =>
      s.(callers := s.callers[t := Caller(node, LoadConfigGen, 0, s.completed, None)])
    case Advance(t) =>
      var (s', c') := Effect(s, t, s.callers[t]);
      s'.(callers := s.callers[t := c'])
    case BeginReload(t) => s.(reloads := s.reloads[t := Writing])
    case AdvanceReload(t) =>
      match s.reloads[t]
      case Writing => s.(version := s.version + 1, reloads := s.reloads[t := Bumping(s.version + 1)])
      case Reloaded(_) => s
      case Bumping(wrote) =>
        s.(gen := s.gen + 1, floors := s.floors + [s.version], completed := Max(s.completed, wrote),
           reloads := s.reloads[t := Reloaded(wrote)])
  }

  /** The state after a run, if each action was enabled in turn. */
  function Play(s: State, run: seq<Action>): Option<State> {
    if run == [] then Some(s)
    else
      match Play(s, run[..|run| - 1])
      case None => None
      case Some(t) => if Enabled(t, run[|run| - 1]) then Some(Next(t, run[|run| - 1])) else None
  }

  // ---------------------------------------------------------------- the invariant

  predicate HoldsMutex(pc: Pc) {
    pc.Recheck? || pc.Clear? || pc.Store? || pc.UnlockCache? || pc.Insert? || pc.UnlockInserted?
  }

  predicate HoldsConfig(pc: Pc) { pc.LockForInsert? || pc.Insert? || pc.UnlockInserted? || pc.ReleaseConfig? }

  /** Past its checks, so the cache has to be fresh enough for it. */
  predicate Checked(pc: Pc) { pc.UnlockCache? || pc.ReadConfig? || pc.LockForInsert? || pc.Insert? }

  predicate Served(pc: Pc) { pc.UnlockInserted? || pc.ReleaseConfig? || pc.Finished? }

  /** Every cached limiter was built from config `v` or a later one. */
  ghost predicate BuiltSince(cache: map<NodeId, Limiter>, v: nat) {
    forall n :: n in cache ==> cache[n].version >= v
  }

  ghost predicate SharedInv(s: State) {
    && |s.floors| == s.gen + 1
    && (forall i, j :: 0 <= i <= j <= s.gen ==> s.floors[i] <= s.floors[j])
    && s.completed <= s.floors[s.gen] <= s.version
    && s.limiterGen <= s.gen
    && BuiltSince(s.cache, s.floors[s.limiterGen])
    && (forall n :: n in s.cache ==> s.cache[n].version <= s.version)
    && (s.mutex.Some? ==> s.mutex.value in s.callers && HoldsMutex(s.callers[s.mutex.value].pc))
    && (forall t :: t in s.readers ==> t in s.callers && HoldsConfig(s.callers[t].pc))
    && (forall t :: t in s.reloads && s.reloads[t].Bumping? ==> s.reloads[t].wrote <= s.version)
    && (forall t :: t in s.reloads && s.reloads[t].Reloaded? ==> s.reloads[t].wrote <= s.completed)
  }

  ghost predicate CallerInv(s: State, t: Thread, c: Caller)
    requires SharedInv(s)
  {
    && (HoldsMutex(c.pc) <==> s.mutex == Some(t))
    && (HoldsConfig(c.pc) <==> t in s.readers)
    && (c.pc == LoadConfigGen ==> c.due <= s.completed)
    && (c.pc != LoadConfigGen ==> c.current <= s.gen && c.due <= s.floors[c.current])
    && (c.pc == Store ==> s.cache == map[])
    && (Checked(c.pc) ==> BuiltSince(s.cache, s.floors[c.current]))
    && (Served(c.pc) ==> c.got.Some? && s.floors[c.current] <= c.got.value.version <= s.version)
  }

  ghost predicate Inv(s: State) {
    SharedInv(s) && forall t :: t in s.callers ==> CallerInv(s, t, s.callers[t])
  }

  lemma InitInv()
    ensures Inv(Init)
  {
  }

  /** What one thread's step can change for the others: nothing about generations and configs,
      the locks only on its own account, and the cache only while it holds the mutex, by emptying
      it or adding a limiter of the current config. */
  ghost predicate Local(s: State, s': State, t: Thread) {
    && s'.version == s.version && s'.gen == s.gen && s'.floors == s.floors && s'.completed == s.completed
    && (s'.mutex == s.mutex || (s.mutex == None && s'.mutex == Some(t)) || (s.mutex == Some(t) && s'.mutex == None))
    && (forall u :: u != t ==> (u in s'.readers <==> u in s.readers))
    && (s'.cache == s.cache ||
        (s.mutex == Some(t) && forall n :: n in s'.cache ==>
           s'.cache[n].version == s.version || (n in s.cache && s'.cache[n] == s.cache[n])))
  }

  lemma OtherKept(s: State, s': State, t: Thread, u: Thread, c: Caller)
    requires SharedInv(s) && SharedInv(s') && Local(s, s', t) && u != t && CallerInv(s, u, c)
    ensures CallerInv(s', u, c)
  {
  }

  lemma AdvanceLocal(s: State, t: Thread)
    requires Inv(s) && Enabled(s, Advance(t))
    ensures Local(s, Next(s, Advance(t)), t)
  {
    assert CallerInv(s, t, s.callers[t]);
  }

  lemma CheckShared(s: State, t: Thread)
    requires Inv(s) && Enabled(s, Advance(t)) && Checking(s.callers[t].pc)
    ensures SharedInv(Next(s, Advance(t)))
  {
    assert CallerInv(s, t, s.callers[t]);
  }

  /** The steps of the first half that only read. */
  predicate Reading(pc: Pc) { pc.LoadConfigGen? || pc.LoadLimiterGen? || pc.Recheck? }

  lemma ReadSelf(s: State, t: Thread, c: Caller)
    requires SharedInv(s) && CallerInv(s, t, c) && Reading(c.pc)
    requires SharedInv(Check(s, t, c).0.(callers := s.callers[t := Check(s, t, c).1]))
    ensures CallerInv(Check(s, t, c).0.(callers := s.callers[t := Check(s, t, c).1]), t, Check(s, t, c).1)
  {
  }

  lemma WriteSelf(s: State, t: Thread, c: Caller)
    requires SharedInv(s) && CallerInv(s, t, c) && Checking(c.pc) && !Reading(c.pc)
    requires c.pc.LockCache? ==> s.mutex == None
    requires SharedInv(Check(s, t, c).0.(callers := s.callers[t := Check(s, t, c).1]))
    ensures CallerInv(Check(s, t, c).0.(callers := s.callers[t := Check(s, t, c).1]), t, Check(s, t, c).1)
  {
  }

  lemma ServeShared(s: State, t: Thread)
    requires Inv(s) && Enabled(s, Advance(t)) && !Checking(s.callers[t].pc)
    ensures SharedInv(Next(s, Advance(t)))
  {
    assert CallerInv(s, t, s.callers[t]);
    assert s.floors[s.limiterGen] <= s.version;
  }

  lemma ServeSelf(s: State, t: Thread, c: Caller)
    requires SharedInv(s) && CallerInv(s, t, c) && !Checking(c.pc) && c.pc != Finished
    requires c.pc.LockForInsert? ==> s.mutex == None
    requires SharedInv(Serve(s, t, c).0.(callers := s.callers[t := Serve(s, t, c).1]))
    ensures CallerInv(Serve(s, t, c).0.(callers := s.callers[t := Serve(s, t, c).1]), t, Serve(s, t, c).1)
  {
    assert s.floors[c.current] <= s.version;
  }

  lemma BeginKeepsInv(s: State, a: Action)
    requires Inv(s) && Enabled(s, a) && (a.BeginLookup? || a.BeginReload?)
    ensures Inv(Next(s, a))
  {
    var s' := Next(s, a);
    if a.BeginLookup? && a.t in s.callers { assert CallerInv(s, a.t, s.callers[a.t]); }
    assert SharedInv(s');
    forall u | u in s'.callers
      ensures CallerInv(s', u, s'.callers[u])
    {
      if u in s.callers { assert CallerInv(s, u, s.callers[u]); }
    }
  }

  lemma ReloadKeepsShared(s: State, t: Thread)
    requires Inv(s) && Enabled(s, AdvanceReload(t))
    ensures SharedInv(Next(s, AdvanceReload(t)))
  {
    var s' := Next(s, AdvanceReload(t));
    assert forall i :: 0 <= i <= s.gen ==> s'.floors[i] == s.floors[i] <= s.version;
  }

  lemma ReloadKeepsInv(s: State, t: Thread)
    requires Inv(s) && Enabled(s, AdvanceReload(t))
    ensures Inv(Next(s, AdvanceReload(t)))
  {
    var s' := Next(s, AdvanceReload(t));
    ReloadKeepsShared(s, t);
    forall u | u in s'.callers
      ensures CallerInv(s', u, s'.callers[u])
    {
      assert CallerInv(s, u, s.callers[u]);
      assert forall i :: 0 <= i <= s.gen ==> s'.floors[i] == s.floors[i];
    }
  }

  lemma NextKeepsInv(s: State, a: Action)
    requires Inv(s) && Enabled(s, a)
    ensures Inv(Next(s, a))
  {
    if a.Advance? {
      if Checking(s.callers[a.t].pc) {
        CheckShared(s, a.t);
        if Reading(s.callers[a.t].pc) {
          ReadSelf(s, a.t, s.callers[a.t]);
        } else {
          WriteSelf(s, a.t, s.callers[a.t]);
        }
      } else {
        ServeShared(s, a.t);
        ServeSelf(s, a.t, s.callers[a.t]);
      }
      AdvanceLocal(s, a.t);
      forall u | u in s.callers && u != a.t
        ensures CallerInv(Next(s, a), u, s.callers[u])
      {
        OtherKept(s, Next(s, a), a.t, u, s.callers[u]);
      }
    } else if a.AdvanceReload? {
      ReloadKeepsInv(s, a.t);
    } else {
      BeginKeepsInv(s, a);
    }
  }

  lemma {:induction false} PlayKeepsInv(s: State, run: seq<Action>)
    requires Inv(s) && Play(s, run).Some?
    ensures Inv(Play(s, run).value)
  {
    if run != [] {
      PlayKeepsInv(s, run[..|run| - 1]);
      NextKeepsInv(Play(s, run[..|run| - 1]).value, run[|run| - 1]);
    }
  }

  // ---------------------------------------------------------------- what a lookup returns

  /** The last lookup of `t` in this run began with the i-th action. */
  ghost predicate BegunAt(run: seq<Action>, i: nat, t: Thread) {
    i < |run| && run[i].BeginLookup? && run[i].t == t
    && forall k :: i < k < |run| ==> !(run[k].BeginLookup? && run[k].t == t)
  }

  lemma {:induction false} DueKept(s: State, run: seq<Action>, i: nat, t: Thread)
    requires Play(s, run).Some? && BegunAt(run, i, t)
    ensures Play(s, run[..i]).Some?
    ensures
      var v := Play(s, run).value;
      t in v.callers && v.callers[t].due == Play(s, run[..i]).value.completed
  {
    var p := run[..|run| - 1];
    if i == |p| {
      assert run[..i] == p;
    } else {
      assert forall k :: 0 <= k < |p| ==> p[k] == run[k];
      DueKept(s, p, i, t);
      assert p[..i] == run[..i];
    }
  }

  /** However lookups and reloads interleave, the limiter a lookup returns was built from a config
      at least as new as the one written by any reload that had finished when the lookup began. */
  lemma LookupIsCurrent(run: seq<Action>, i: nat, t: Thread, r: Thread)
    requires Play(Init, run).Some? && BegunAt(run, i, t)
    ensures Play(Init, run[..i]).Some?
    ensures
      var before, after := Play(Init, run[..i]).value, Play(Init, run).value;
      && t in after.callers
      && (after.callers[t].pc == Finished ==>
            && after.callers[t].got.Some?
            && before.completed <= after.callers[t].got.value.version <= after.version
            && (r in before.reloads && before.reloads[r].Reloaded? ==>
                  before.reloads[r].wrote <= after.callers[t].got.value.version))
  {
    InitInv();
    PlayKeepsInv(Init, run);
    DueKept(Init, run, i, t);
    PlayKeepsInv(Init, run[..i]);
    var after := Play(Init, run).value;
    assert CallerInv(after, t, after.callers[t]);
  }

  // ---------------------------------------------------------------- sharing

  ghost predicate NoReload(run: seq<Action>) {
    forall k :: 0 <= k < |run| ==> !run[k].AdvanceReload?
  }

  ghost predicate DistinctIds(s: State) {
    && (forall n :: n in s.cache ==> s.cache[n].id < s.nextId)
    && (forall m, n :: m in s.cache && n in s.cache && m != n ==> s.cache[m].id != s.cache[n].id)
  }

  predicate QuietCaller(s: State, c: Caller) {
    && (Checking(c.pc) ==> c.pc == LoadConfigGen || (c.pc == LoadLimiterGen && c.current == s.gen))
    && (Served(c.pc) ==> c.node in s.cache && c.got == Some(s.cache[c.node]))
  }

  /** Nothing has been reloaded: nobody clears the cache, and whoever was served holds the entry. */
  ghost predicate Quiet(s: State) {
    && s.gen == s.limiterGen
    && DistinctIds(s)
    && forall t :: t in s.callers ==> QuietCaller(s, s.callers[t])
  }

  /** Generations stand still and the cache only grows. */
  ghost predicate Grows(s: State, s': State) {
    && s'.gen == s.gen && s'.limiterGen == s.limiterGen
    && forall n :: n in s.cache ==> n in s'.cache && s'.cache[n] == s.cache[n]
  }

  lemma QuietAdvance(s: State, t: Thread)
    requires Quiet(s) && Enabled(s, Advance(t))
    ensures
      var s' := Next(s, Advance(t));
      Grows(s, s') && DistinctIds(s') && QuietCaller(s', s'.callers[t])
  {
    assert QuietCaller(s, s.callers[t]);
  }

  lemma QuietStep(s: State, a: Action)
    requires Quiet(s) && Enabled(s, a) && !a.AdvanceReload?
    ensures Quiet(Next(s, a))
  {
    if a.Advance? { QuietAdvance(s, a.t); }
    var s' := Next(s, a);
    assert Grows(s, s');
    forall u | u in s'.callers
      ensures QuietCaller(s', s'.callers[u])
    {
      if u in s.callers && !((a.Advance? || a.BeginLookup?) && u == a.t) {
        assert QuietCaller(s, s.callers[u]) && s'.callers[u] == s.callers[u];
      }
    }
  }

  lemma {:induction false} QuietRun(s: State, run: seq<Action>)
    requires Quiet(s) && Play(s, run).Some? && NoReload(run)
    ensures Quiet(Play(s, run).value)
  {
    if run != [] {
      var p := run[..|run| - 1];
      assert forall k :: 0 <= k < |p| ==> p[k] == run[k];
      QuietRun(s, p);
      QuietStep(Play(s, p).value, run[|run| - 1]);
    }
  }

  lemma {:induction false} VersionStands(run: seq<Action>)
    requires Play(Init, run).Some? && NoReload(run)
    ensures Play(Init, run).value.version == 0
  {
    if run != [] {
      var p := run[..|run| - 1];
      assert forall k :: 0 <= k < |p| ==> p[k] == run[k];
      VersionStands(p);
    }
  }

  /** Until a reload happens, all lookups of one device get the same limiter, lookups of different
      devices get different ones, and all are built from the config the daemon started with. */
  lemma OneLimiterPerDevice(run: seq<Action>, t: Thread, u: Thread)
    requires Play(Init, run).Some? && NoReload(run)
    requires
      var v := Play(Init, run).value;
      t in v.callers && u in v.callers && v.callers[t].pc == Finished && v.callers[u].pc == Finished
    ensures
      var v := Play(Init, run).value;
      && v.callers[t].got.Some? && v.callers[u].got.Some?
      && (v.callers[t].node == v.callers[u].node
          <==> v.callers[t].got.value.id == v.callers[u].got.value.id)
      && (v.callers[t].node == v.callers[u].node ==> v.callers[t].got == v.callers[u].got)
      && v.callers[t].got.value.version == 0
  {
    QuietRun(Init, run);
    VersionStands(run);
    InitInv();
    PlayKeepsInv(Init, run);
    var v := Play(Init, run).value;
    assert CallerInv(v, t, v.callers[t]);
  }

  // ---------------------------------------------------------------- progress

  predicate Unfinished(s: State, t: Thread) { t in s.callers && s.callers[t].pc != Finished }

  /** The two locks cannot deadlock: while any lookup or reload is unfinished, one can move. */
  lemma NeverStuck(s: State, t: Thread)
    requires Inv(s) && (Unfinished(s, t) || (t in s.reloads && !s.reloads[t].Reloaded?))
    ensures exists a: Action :: (a.Advance? || a.AdvanceReload?) && Enabled(s, a)
  {
    if s.mutex.Some? {
      assert Enabled(s, Advance(s.mutex.value));
    } else if Unfinished(s, t) {
      assert Enabled(s, Advance(t));
    } else if s.readers != {} {
      var u :| u in s.readers;
      assert Enabled(s, Advance(u));
    } else {
      assert Enabled(s, AdvanceReload(t));
    }
  }
}
