/** The authorized set on disk: its text form, and how it is replaced.

    An operation changes the set and takes a snapshot under the lock. After the lock is released the
    save writes a temporary file, which all saves share, and renames it over the store, so the calls
    of overlapping saves may interleave and the saves may land in any order. */
module TrustStore {
  import opened Text
  import opened Trust

  /** A node id is printed as 64 lower-case hexadecimal digits. */
  function ShowId(id: NodeId): string { ToHex(id, false) }

  function ParseId(s: string): Option<NodeId> {
    match FromHex(s)
    case Some(key) => if |key| == KEY_BYTES then Some(key) else None
    case None => None
  }

  lemma ParseShown(id: NodeId)
    ensures ParseId(ShowId(id)) == Some(id)
    ensures Trimmed(ShowId(id)) && '\n' !in ShowId(id) && '\r' !in ShowId(id)
  {
    FromToHex(id, false);
  }

  function Elements<T>(s: seq<T>): set<T> { set x | x in s }

  // ---------------------------------------------------------------- the file

  function LoadLines(lines: seq<string>): set<NodeId> {
    if lines == [] then {}
    else
      LoadLines(lines[1..]) + match ParseId(Trim(lines[0])) case Some(n) => {n} case None => {}
  }

  function LoadedFrom(file: Option<string>): set<NodeId> {
    match file
    case None => {}
    case Some(text) => LoadLines(Lines(text))
  }

  /** A missing file is empty; blank and malformed lines are skipped. */
  method LoadAuthorized(file: Option<string>) returns (ids: set<NodeId>)
    ensures ids == LoadedFrom(file)
  {
    if file.None? {
      return {};
    }
    ids := {};
    var lines := Lines(file.value);
    for i := 0 to |lines|
      invariant ids + LoadLines(lines[i..]) == LoadLines(lines)
    {
      assert lines[i..][1..] == lines[i + 1..];
      var line := Trim(lines[i]);
      if line == [] {
        continue;
      }
      match ParseId(line)
      case Some(id) => ids := ids + {id};
      case None =>
    }
  }

  function ShowAll(order: seq<NodeId>): (r: seq<string>)
    ensures |r| == |order|
  {
    if order == [] then [] else [ShowId(order[0])] + ShowAll(order[1..])
  }

  function FileText(entries: seq<string>): string { Join(entries, "\n") + "\n" }

  lemma FileTextFirst(first: string, rest: seq<string>)
    ensures FileText([first] + rest) == first + "\n" + if rest == [] then "" else FileText(rest)
  {
  }

  lemma LoadFirst(n: NodeId, tail: string)
    ensures LoadedFrom(Some(ShowId(n) + "\n" + tail)) == {n} + LoadedFrom(Some(tail))
  {
    var line := ShowId(n);
    ParseShown(n);
    TrimFixed(line);
    LinesFirst(line, tail);
    assert ([line] + Lines(tail))[1..] == Lines(tail);
  }

  lemma EmptyFile()
    ensures LoadedFrom(Some(FileText([]))) == {} && LoadedFrom(Some("")) == {}
  {
  }

  /** What was saved is what is loaded, in whichever order the set was listed. */
  lemma {:induction false} SaveThenLoad(order: seq<NodeId>)
    ensures LoadedFrom(Some(FileText(ShowAll(order)))) == Elements(order)
  {
    EmptyFile();
    if order != [] {
      var rest := ShowAll(order[1..]);
      var tail := if rest == [] then "" else FileText(rest);
      assert LoadedFrom(Some(tail)) == Elements(order[1..]) by { SaveThenLoad(order[1..]); }
      assert FileText(ShowAll(order)) == ShowId(order[0]) + "\n" + tail by { FileTextFirst(ShowId(order[0]), rest); }
      LoadFirst(order[0], tail);
      assert Elements(order) == {order[0]} + Elements(order[1..]);
    }
  }

  // ---------------------------------------------------------------- overlapping saves

  /** What an open save writes to: the temporary file, the store file once a rename has put that
      file there, or a file that another rename has replaced. */
  datatype Handle = OnTemp | OnStore | Unlinked

  datatype Phase = Waiting | Open(file: Handle) | Filled

  /** A save that has not ended: the snapshot, and how many operations had been done when it was
      taken. */
  datatype Save = Save(at: nat, listing: seq<NodeId>, phase: Phase)

  /** The operations done so far, the two files, and the saves that have not ended. `landed` is the
      count of operations behind the snapshot renamed last. */
  datatype World = World(
    start: State,
    done: seq<Op>,
    store: Option<string>,
    temp: Option<string>,
    landed: nat,
    saves: seq<Save>)

  /** A section under the lock, or one system call of a save: create and truncate the temporary
      file, write the text, rename; a write may break off, and any call may fail. */
  datatype Move =
    | Lock(op: Op, listing: seq<NodeId>)
    | Create(k: nat)
    | Fill(k: nat)
    | Spoil(k: nat, n: nat)
    | Replace(k: nat)
    | Abandon(k: nat)

  function AuthorizedAt(w: World, n: nat): set<NodeId>
    requires n <= |w.done|
  {
    Run(w.start, w.done[..n]).authorized
  }

  function Mem(w: World): State { Run(w.start, w.done) }

  function TextOf(v: Save): string { FileText(ShowAll(v.listing)) }

  /** The operations that write the authorized set: a fresh bind and a revocation. */
  predicate Saves(s: State, op: Op) {
    FreshBind(Step(s, op).1) || (op.Revoke? && Step(s, op).1 == Accepted)
  }

  predicate Active(v: Save) { !v.phase.Waiting? }

  /** A snapshot lists the set in an order of its own. */
  predicate Enabled(w: World, m: Move) {
    match m
    case Lock(op, listing) => Saves(Mem(w), op) ==> Elements(listing) == Step(Mem(w), op).0.authorized
    case Create(k) => k < |w.saves| && w.saves[k].phase.Waiting?
    case Fill(k) => k < |w.saves| && w.saves[k].phase.Open?
    case Spoil(k, n) => k < |w.saves| && w.saves[k].phase.Open? && n <= |TextOf(w.saves[k])|
    case Replace(k) => k < |w.saves| && w.saves[k].phase.Filled?
    case Abandon(k) => k < |w.saves|
  }

  function Remove<T>(s: seq<T>, k: nat): seq<T>
    requires k < |s|
  {
    s[..k] + s[k + 1..]
  }

  /** Writing from the start of a file keeps what lies behind the text. */
  function Overwrite(content: string, text: string): string {
    if |text| < |content| then text + content[|text|..] else text
  }

  function Write(w: World, h: Handle, text: string): World {
    match h
    case OnTemp => if w.temp.Some? then w.(temp := Some(Overwrite(w.temp.value, text))) else w
    case OnStore => if w.store.Some? then w.(store := Some(Overwrite(w.store.value, text))) else w
    case Unlinked => w
  }

  /** After a rename the handles follow the files. */
  function Follow(v: Save): Save {
    match v.phase
    case Open(OnTemp) => v.(phase := Open(OnStore))
    case Open(OnStore) => v.(phase := Open(Unlinked))
    case _ => v
  }

  function FollowAll(vs: seq<Save>): (r: seq<Save>)
    ensures |r| == |vs| && forall i :: 0 <= i < |vs| ==> r[i] == Follow(vs[i])
  {
    seq(|vs|, i requires 0 <= i < |vs| => Follow(vs[i]))
  }

  function SetPhase(w: World, k: nat, p: Phase): World
    requires k < |w.saves|
  {
    w.(saves := w.saves[k := w.saves[k].(phase := p)])
  }

  function Drop(w: World, k: nat): World
    requires k < |w.saves|
  {
    w.(saves := Remove(w.saves, k))
  }

  function Next(w: World, m: Move): World
    requires Enabled(w, m)
  {
    match m
    case Lock(op, listing) =>
      w.(done := w.done + [op],
         saves := if Saves(Mem(w), op) then w.saves + [Save(|w.done| + 1, listing, Waiting)] else w.saves)
    case Create(k) => SetPhase(w, k, Open(OnTemp)).(temp := Some(""))
    case Fill(k) => Write(SetPhase(w, k, Filled), w.saves[k].phase.file, TextOf(w.saves[k]))
    case Spoil(k, n) => Write(Drop(w, k), w.saves[k].phase.file, TextOf(w.saves[k])[..n])
    case Replace(k) =>
      if w.temp.None? then Drop(w, k)
      else w.(store := w.temp, temp := None, landed := w.saves[k].at, saves := FollowAll(Remove(w.saves, k)))
    case Abandon(k) => Drop(w, k)
  }

  /** The world after the moves, if each was possible in turn. */
  function Play(w: World, moves: seq<Move>): Option<World> {
    if moves == [] then Some(w)
    else
      match Play(w, moves[..|moves| - 1])
      case None => None
      case Some(v) => if Enabled(v, moves[|moves| - 1]) then Some(Next(v, moves[|moves| - 1])) else None
  }

  lemma PlayLast(w: World, moves: seq<Move>, m: Move)
    requires Play(w, moves).Some? && Enabled(Play(w, moves).value, m)
    ensures Play(w, moves + [m]) == Some(Next(Play(w, moves).value, m))
  {
  }

  predicate Idle(w: World) { forall k :: 0 <= k < |w.saves| ==> !Active(w.saves[k]) }

  /** No save creates the temporary file while another is between creating and renaming it. */
  predicate Exclusive(w: World, moves: seq<Move>) {
    moves == []
    || (Exclusive(w, moves[..|moves| - 1])
        && (moves[|moves| - 1].Create? && Play(w, moves[..|moves| - 1]).Some? ==>
              Idle(Play(w, moves[..|moves| - 1]).value)))
  }

  /** A daemon that has just loaded its file; a crash may have left a temporary file behind. */
  ghost predicate Started(w: World) {
    LoadedFrom(w.store) == w.start.authorized && w.done == [] && w.landed == 0 && w.saves == []
  }

  /** The set was the authorized one after some number of the operations. */
  ghost predicate Held(w: World, ids: set<NodeId>) {
    exists i :: 0 <= i <= |w.done| && ids == AuthorizedAt(w, i)
  }

  ghost predicate Snapshot(w: World, v: Save) {
    v.at <= |w.done| && Elements(v.listing) == AuthorizedAt(w, v.at)
  }

  /** What an active save finds in the temporary file. */
  predicate Undisturbed(w: World, v: Save) {
    match v.phase
    case Waiting => true
    case Open(h) => h == OnTemp && w.temp == Some("")
    case Filled => w.temp == Some(TextOf(v))
  }

  /** The file is the snapshot renamed last, and at most one save is at work on the next. */
  ghost predicate Orderly(w: World) {
    && w.landed <= |w.done| && LoadedFrom(w.store) == AuthorizedAt(w, w.landed)
    && (forall k :: 0 <= k < |w.saves| ==> Snapshot(w, w.saves[k]) && Undisturbed(w, w.saves[k]))
    && (forall i, j :: 0 <= i < j < |w.saves| ==> !(Active(w.saves[i]) && Active(w.saves[j])))
  }

  lemma LockOrderly(w: World, op: Op, listing: seq<NodeId>)
    requires Orderly(w) && Enabled(w, Lock(op, listing))
    ensures Orderly(Next(w, Lock(op, listing)))
  {
    var v := Next(w, Lock(op, listing));
    RunAppend(w.start, w.done, op);
    assert forall n :: 0 <= n <= |w.done| ==> v.done[..n] == w.done[..n];
    assert v.done[..|w.done| + 1] == v.done;
  }

  lemma CreateOrderly(w: World, k: nat)
    requires Orderly(w) && Enabled(w, Create(k)) && Idle(w)
    ensures Orderly(Next(w, Create(k)))
  {
  }

  lemma FillOrderly(w: World, k: nat)
    requires Orderly(w) && Enabled(w, Fill(k))
    ensures Orderly(Next(w, Fill(k)))
  {
    var v := Next(w, Fill(k));
    assert Active(w.saves[k]);
    assert v.temp == Some(TextOf(w.saves[k])) && v.store == w.store;
  }

  /** Without its active save, an orderly world is idle. */
  lemma LoneActive(w: World, k: nat, i: nat)
    requires Orderly(w) && k < |w.saves| && Active(w.saves[k]) && i < |w.saves| - 1
    ensures Remove(w.saves, k)[i] in w.saves && !Active(Remove(w.saves, k)[i])
  {
    var j := if i < k then i else i + 1;
    assert Remove(w.saves, k)[i] == w.saves[j];
  }

  lemma ReplaceOrderly(w: World, k: nat)
    requires Orderly(w) && Enabled(w, Replace(k))
    ensures Orderly(Next(w, Replace(k))) && w.temp == Some(TextOf(w.saves[k]))
  {
    var v := Next(w, Replace(k));
    SaveThenLoad(w.saves[k].listing);
    forall i | 0 <= i < |v.saves|
      ensures v.saves[i] in w.saves && !Active(v.saves[i])
    {
      LoneActive(w, k, i);
    }
  }

  /** A save that ends without a rename leaves the store alone. */
  lemma EndOrderly(w: World, m: Move)
    requires Orderly(w) && Enabled(w, m) && (m.Spoil? || m.Abandon?)
    ensures Orderly(Next(w, m))
  {
    var v := Next(w, m);
    assert v.start == w.start && v.done == w.done && v.store == w.store && v.landed == w.landed;
    assert forall i :: 0 <= i < |v.saves| ==> v.saves[i] == w.saves[if i < m.k then i else i + 1];
    if Active(w.saves[m.k]) {
      forall i | 0 <= i < |v.saves|
        ensures v.saves[i] in w.saves && !Active(v.saves[i])
      {
        LoneActive(w, m.k, i);
      }
    }
  }

  lemma NextOrderly(w: World, m: Move)
    requires Orderly(w) && Enabled(w, m) && (m.Create? ==> Idle(w))
    ensures Orderly(Next(w, m))
  {
    match m {
      case Lock(op, listing) => LockOrderly(w, op, listing);
      case Create(k) => CreateOrderly(w, k);
      case Fill(k) => FillOrderly(w, k);
      case Replace(k) => ReplaceOrderly(w, k);
      case _ => EndOrderly(w, m);
    }
  }

  lemma {:induction false} PlayOrderly(w: World, moves: seq<Move>)
    requires Started(w) && Play(w, moves).Some? && Exclusive(w, moves)
    ensures Orderly(Play(w, moves).value)
  {
    if moves != [] {
      PlayOrderly(w, moves[..|moves| - 1]);
      NextOrderly(Play(w, moves[..|moves| - 1]).value, moves[|moves| - 1]);
    }
  }

  /** However operations and saves overlap, fail and land out of order, as long as no two saves are
      between creating and renaming the temporary file at once, the file at every moment loads as a
      set that was once the one in memory. */
  lemma DiskWasHeld(w: World, moves: seq<Move>)
    requires Started(w) && Play(w, moves).Some? && Exclusive(w, moves)
    ensures Held(Play(w, moves).value, LoadedFrom(Play(w, moves).value.store))
  {
    PlayOrderly(w, moves);
  }

  // ---------------------------------------------------------------- when the file is current

  /** The file equals the memory exactly when the operations since the snapshot that landed last
      have left the authorized set as it was then. */
  lemma FileIsCurrent(w: World, moves: seq<Move>)
    requires Started(w) && Play(w, moves).Some? && Exclusive(w, moves)
    ensures
      var v := Play(w, moves).value;
      && v.landed <= |v.done|
      && (LoadedFrom(v.store) == Mem(v).authorized <==> AuthorizedAt(v, v.landed) == Mem(v).authorized)
  {
    PlayOrderly(w, moves);
  }

  /** The snapshot that landed last is the newest: no operation since took another. */
  ghost predicate NewestLanded(w: World)
    requires w.landed <= |w.done|
  {
    forall k :: w.landed <= k < |w.done| ==> !Saves(Run(w.start, w.done[..k]), w.done[k])
  }

  lemma UnsavedKeepsTrust(s: State, op: Op)
    ensures Saves(s, op) || Step(s, op).0.authorized == s.authorized
  {
  }

  lemma {:induction false} UnsavedSince(s: State, ops: seq<Op>, n: nat)
    requires n <= |ops| && forall k :: n <= k < |ops| ==> !Saves(Run(s, ops[..k]), ops[k])
    ensures Run(s, ops[..n]).authorized == Run(s, ops).authorized
  {
    if n == |ops| {
      assert ops[..n] == ops;
    } else {
      var p := ops[..|ops| - 1];
      assert forall k :: 0 <= k <= |p| ==> p[..k] == ops[..k];
      UnsavedSince(s, p, n);
      UnsavedKeepsTrust(Run(s, p), ops[|p|]);
    }
  }

  /** It suffices that the newest snapshot landed last, whatever became of the others. */
  lemma NewestIsDurable(w: World, moves: seq<Move>)
    requires Started(w) && Play(w, moves).Some? && Exclusive(w, moves)
    ensures
      var v := Play(w, moves).value;
      v.landed <= |v.done| && (NewestLanded(v) ==> LoadedFrom(v.store) == Mem(v).authorized)
  {
    PlayOrderly(w, moves);
    var v := Play(w, moves).value;
    if NewestLanded(v) { UnsavedSince(v.start, v.done, v.landed); }
  }

  /** Every save lands, one after the other in the order of the lock sections. */
  ghost predicate InOrder(moves: seq<Move>) {
    forall k :: 0 <= k < |moves| ==>
      !moves[k].Abandon? && !moves[k].Spoil? && (moves[k].Replace? ==> moves[k].k == 0)
  }

  ghost predicate Newest(w: World) {
    Mem(w).authorized ==
    if w.saves == [] then LoadedFrom(w.store) else Elements(w.saves[|w.saves| - 1].listing)
  }

  lemma NewestStep(w: World, m: Move)
    requires Orderly(w) && Newest(w) && Enabled(w, m) && !m.Abandon? && !m.Spoil? && (m.Replace? ==> m.k == 0)
    ensures Newest(Next(w, m))
  {
    match m {
      case Lock(op, _) =>
        RunAppend(w.start, w.done, op);
        UnsavedKeepsTrust(Mem(w), op);
      case Replace(k) =>
        ReplaceOrderly(w, k);
        SaveThenLoad(w.saves[0].listing);
      case _ =>
    }
  }

  /** In lock order, the newest snapshot is the set in memory, so once nothing is in flight the
      file holds exactly that set and a restart loses and resurrects nobody. */
  lemma {:induction false} InOrderIsDurable(w: World, moves: seq<Move>)
    requires Started(w) && Play(w, moves).Some? && Exclusive(w, moves) && InOrder(moves)
    ensures Newest(Play(w, moves).value)
  {
    if moves != [] {
      var p, m := moves[..|moves| - 1], moves[|moves| - 1];
      InOrderIsDurable(w, p);
      PlayOrderly(w, p);
      assert moves[|p|] == m;
      NewestStep(Play(w, p).value, m);
    }
  }

  // ---------------------------------------------------------------- runs that go wrong

  lemma PlayTwo(w: World, a: Move, b: Move)
    requires Enabled(w, a) && Enabled(Next(w, a), b)
    ensures Play(w, [a, b]) == Some(Next(Next(w, a), b))
  {
    PlayLast(w, [], a);
    assert [] + [a] == [a];
    PlayLast(w, [a], b);
    assert [a] + [b] == [a, b];
  }

  lemma {:induction false} PlayOn(w: World, a: seq<Move>, b: seq<Move>)
    requires Play(w, a).Some?
    ensures Play(w, a + b) == Play(Play(w, a).value, b)
  {
    if b == [] {
      assert a + b == a;
    } else {
      PlayOn(w, a, b[..|b| - 1]);
      assert (a + b)[..|a + b| - 1] == a + b[..|b| - 1];
    }
  }

  /** The rule about the temporary file cannot be dropped at any point: whenever one save is at work
      on it and another is waiting, letting the other create it too can empty the store file. */
  lemma OverlapEmpties(w: World, i: nat, j: nat) returns (moves: seq<Move>)
    requires Orderly(w) && i < |w.saves| && j < |w.saves| && Active(w.saves[i]) && w.saves[j].phase.Waiting?
    ensures Play(w, moves).Some?
    ensures
      var v := Play(w, moves).value;
      v.done == w.done && LoadedFrom(v.store) == {}
  {
    var u := if w.saves[i].phase.Open? then Next(w, Fill(i)) else w;
    assert Orderly(u) by { if w.saves[i].phase.Open? { FillOrderly(w, i); } }
    PlayTwo(u, Create(j), Replace(i));
    EmptyFile();
    if w.saves[i].phase.Open? {
      moves := [Fill(i)] + [Create(j), Replace(i)];
      assert Play(w, [Fill(i)]) == Some(u) by { assert [Fill(i)][..0] == []; }
      PlayOn(w, [Fill(i)], [Create(j), Replace(i)]);
    } else {
      moves := [Create(j), Replace(i)];
    }
  }

  /** The other save then writes into the file that is already in place, and fails at its own
      rename: a save that reports failure has replaced the stored set. */
  lemma FailedSaveReplaces(w: World, i: nat, j: nat)
    requires i < j < |w.saves| && w.saves[i].phase.Filled? && w.saves[j].phase.Waiting?
    ensures
      var moves := [Create(j), Replace(i)] + [Fill(j - 1), Replace(j - 1)];
      && Play(w, moves).Some?
      && var v := Play(w, moves).value;
         v.store == Some(TextOf(w.saves[j])) && v.landed == w.saves[i].at
  {
    PlayTwo(w, Create(j), Replace(i));
    var u := Next(Next(w, Create(j)), Replace(i));
    assert u.saves[j - 1] == w.saves[j].(phase := Open(OnStore));
    PlayTwo(u, Fill(j - 1), Replace(j - 1));
    PlayOn(w, [Create(j), Replace(i)], [Fill(j - 1), Replace(j - 1)]);
  }

  /** Two operations that both save, before either save has begun. */
  lemma TwoLocks(w: World, opA: Op, opB: Op, listA: seq<NodeId>, listB: seq<NodeId>)
    requires Started(w) && Saves(w.start, opA) && Saves(Step(w.start, opA).0, opB)
    requires Elements(listA) == Step(w.start, opA).0.authorized
    requires Elements(listB) == Step(Step(w.start, opA).0, opB).0.authorized
    ensures
      var locks := [Lock(opA, listA), Lock(opB, listB)];
      && Exclusive(w, locks)
      && Play(w, locks) == Some(w.(done := [opA, opB], saves := [Save(1, listA, Waiting), Save(2, listB, Waiting)]))
  {
    var locks := [Lock(opA, listA), Lock(opB, listB)];
    TwoDone(w.start, opA, opB);
    assert [] + [opA] == [opA] && [opA] + [opB] == [opA, opB];
    var u := Next(w, locks[0]);
    assert w.saves + [Save(1, listA, Waiting)] == [Save(1, listA, Waiting)];
    assert u == w.(done := [opA], saves := [Save(1, listA, Waiting)]);
    assert u.saves + [Save(2, listB, Waiting)] == [Save(1, listA, Waiting), Save(2, listB, Waiting)];
    PlayTwo(w, locks[0], locks[1]);
    assert locks[..1] == [locks[0]] && [locks[0]][..0] == [];
  }

  lemma TwoDone(s: State, a: Op, b: Op)
    ensures Run(s, []) == s && Run(s, [a]) == Step(s, a).0 && Run(s, [a, b]) == Step(Step(s, a).0, b).0
  {
    RunAppend(s, [], a);
    assert [] + [a] == [a];
    RunAppend(s, [a], b);
    assert [a] + [b] == [a, b];
  }

  lemma TwoBinds(s: State, a: NodeId, b: NodeId, value: string)
    requires TokenLive(s, 0, value) && a !in s.authorized && b !in s.authorized && a != b
    ensures
      var t := Step(s, Bind(0, a, value)).0;
      && Saves(s, Bind(0, a, value)) && t.authorized == s.authorized + {a}
      && Saves(t, Bind(0, b, value)) && Step(t, Bind(0, b, value)).0.authorized == s.authorized + {a} + {b}
  {
  }

  /** The first save is renamed after the second has truncated the file they share. */
  lemma RenamedAfterTruncation(w: World, x: Save, y: Save)
    requires w.saves == [x, y] && x.phase.Waiting? && y.phase.Waiting?
    ensures
      Play(w, [Create(0), Fill(0)] + [Create(1), Replace(0)])
      == Some(w.(store := Some(""), temp := None, landed := x.at, saves := [y.(phase := Open(OnStore))]))
  {
    PlayTwo(w, Create(0), Fill(0));
    var u := Next(Next(w, Create(0)), Fill(0));
    assert u == w.(temp := Some(TextOf(x)), saves := [x.(phase := Filled), y]);
    var v := Next(u, Create(1));
    assert v == u.(temp := Some(""), saves := [x.(phase := Filled), y.(phase := Open(OnTemp))]);
    assert Remove(v.saves, 0) == [y.(phase := Open(OnTemp))];
    assert FollowAll(Remove(v.saves, 0)) == [y.(phase := Open(OnStore))];
    PlayTwo(u, Create(1), Replace(0));
    PlayOn(w, [Create(0), Fill(0)], [Create(1), Replace(0)]);
  }

  lemma NeverEmpty(w: World, opA: Op, opB: Op)
    requires w.done == [opA, opB] && w.start.authorized != {}
    requires Step(w.start, opA).0.authorized != {} && Step(Step(w.start, opA).0, opB).0.authorized != {}
    ensures !Held(w, {})
  {
    TwoDone(w.start, opA, opB);
    assert w.done[..0] == [] && w.done[..1] == [opA] && w.done[..2] == [opA, opB];
  }

  /** Two devices binding at once can leave a file that trusts nobody, which memory never did. */
  lemma ConcurrentSavesLoseAll(w: World, a: NodeId, b: NodeId, value: string, listA: seq<NodeId>, listB: seq<NodeId>)
    requires Started(w) && w.start.authorized != {} && TokenLive(w.start, 0, value)
    requires a !in w.start.authorized && b !in w.start.authorized && a != b
    requires Elements(listA) == w.start.authorized + {a} && Elements(listB) == w.start.authorized + {a} + {b}
    ensures
      var locks := [Lock(Bind(0, a, value), listA), Lock(Bind(0, b, value), listB)];
      var moves := locks + ([Create(0), Fill(0)] + [Create(1), Replace(0)]);
      && Play(w, moves).Some?
      && var v := Play(w, moves).value;
         LoadedFrom(v.store) == {} && !Held(v, {})
  {
    var opA, opB := Bind(0, a, value), Bind(0, b, value);
    TwoBinds(w.start, a, b, value);
    TwoLocks(w, opA, opB, listA, listB);
    var locks, files := [Lock(opA, listA), Lock(opB, listB)], [Create(0), Fill(0)] + [Create(1), Replace(0)];
    var u := Play(w, locks).value;
    RenamedAfterTruncation(u, u.saves[0], u.saves[1]);
    PlayOn(w, locks, files);
    EmptyFile();
    assert a in Step(w.start, opA).0.authorized && a in Step(Step(w.start, opA).0, opB).0.authorized;
    NeverEmpty(Play(w, locks + files).value, opA, opB);
  }

  /** One save from beginning to end while no other is active. */
  lemma WholeSave(w: World, k: nat)
    requires k < |w.saves| && Idle(w)
    ensures
      Play(w, [Create(k), Fill(k)] + [Replace(k)]) ==
      Some(w.(store := Some(TextOf(w.saves[k])), temp := None, landed := w.saves[k].at, saves := Remove(w.saves, k)))
  {
    PlayTwo(w, Create(k), Fill(k));
    var u := Next(Next(w, Create(k)), Fill(k));
    PlayLast(w, [Create(k), Fill(k)], Replace(k));
    var rest := Remove(w.saves, k);
    assert Remove(u.saves, k) == rest;
    assert forall i :: 0 <= i < |rest| ==> rest[i] in w.saves;
    assert FollowAll(rest) == rest;
  }

  lemma {:induction false} ExclusiveOn(w: World, a: seq<Move>, b: seq<Move>)
    requires Exclusive(w, a) && Play(w, a).Some? && Exclusive(Play(w, a).value, b)
    ensures Exclusive(w, a + b)
  {
    if b == [] {
      assert a + b == a;
    } else {
      ExclusiveOn(w, a, b[..|b| - 1]);
      PlayOn(w, a, b[..|b| - 1]);
      assert (a + b)[..|a + b| - 1] == a + b[..|b| - 1];
    }
  }

  lemma WholeSaveExclusive(w: World, k: nat)
    requires k < |w.saves| && Idle(w)
    ensures Exclusive(w, [Create(k), Fill(k)] + [Replace(k)])
  {
    assert ([Create(k), Fill(k)] + [Replace(k)])[..2] == [Create(k), Fill(k)];
    assert [Create(k), Fill(k)][..1] == [Create(k)];
    assert [Create(k)][..0] == [];
    assert Exclusive(w, [Create(k)]);
    assert Exclusive(w, [Create(k), Fill(k)]);
  }

  lemma SavedBackwards(w: World, x: Save, y: Save)
    requires w.saves == [x, y] && x.phase.Waiting? && y.phase.Waiting?
    ensures
      var moves := [Create(1), Fill(1)] + [Replace(1)] + ([Create(0), Fill(0)] + [Replace(0)]);
      && Exclusive(w, moves)
      && Play(w, moves) == Some(w.(store := Some(TextOf(x)), temp := None, landed := x.at, saves := []))
  {
    var newer, older := [Create(1), Fill(1)] + [Replace(1)], [Create(0), Fill(0)] + [Replace(0)];
    WholeSave(w, 1);
    WholeSaveExclusive(w, 1);
    assert Remove(w.saves, 1) == [x];
    var v := Play(w, newer).value;
    WholeSave(v, 0);
    WholeSaveExclusive(v, 0);
    assert Remove(v.saves, 0) == [];
    PlayOn(w, newer, older);
    ExclusiveOn(w, newer, older);
  }

  lemma BindThenRevoke(s: State, node: NodeId, value: string)
    requires TokenLive(s, 0, value) && node !in s.authorized
    ensures
      var t := Step(s, Bind(0, node, value)).0;
      && Saves(s, Bind(0, node, value)) && t.authorized == s.authorized + {node}
      && Saves(t, Op.Revoke(node)) && Step(t, Op.Revoke(node)).0.authorized == s.authorized
  {
  }

  /** Even one save at a time it can fail: a bind and a revocation whose saves land the other way
      round leave the revoked device in the file. */
  lemma ReversedSavesResurrect(w: World, node: NodeId, value: string, with: seq<NodeId>, without: seq<NodeId>)
    requires Started(w) && TokenLive(w.start, 0, value) && node !in w.start.authorized
    requires Elements(with) == w.start.authorized + {node} && Elements(without) == w.start.authorized
    ensures
      var locks := [Lock(Bind(0, node, value), with), Lock(Op.Revoke(node), without)];
      var moves := locks + ([Create(1), Fill(1)] + [Replace(1)]) + ([Create(0), Fill(0)] + [Replace(0)]);
      && Play(w, moves).Some? && Exclusive(w, moves)
      && var v := Play(w, moves).value;
         && v.saves == [] && Mem(v).authorized == w.start.authorized
         && LoadedFrom(v.store) == w.start.authorized + {node}
  {
    var bind, revoke := Bind(0, node, value), Op.Revoke(node);
    var locks := [Lock(bind, with), Lock(revoke, without)];
    var newer, older := [Create(1), Fill(1)] + [Replace(1)], [Create(0), Fill(0)] + [Replace(0)];
    BindThenRevoke(w.start, node, value);
    TwoLocks(w, bind, revoke, with, without);
    var u := Play(w, locks).value;
    SavedBackwards(u, u.saves[0], u.saves[1]);
    PlayOn(w, locks, newer + older);
    ExclusiveOn(w, locks, newer + older);
    assert locks + newer + older == locks + (newer + older);
    TwoDone(w.start, bind, revoke);
    SaveThenLoad(with);
  }
}
