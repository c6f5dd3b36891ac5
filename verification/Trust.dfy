/** Pairing tokens, invitations and the set of trusted devices, as a state machine over values.

    Each operation is one section under the lock of `AuthState`; a run is any sequence of them.
    Instants and durations are nanoseconds on a monotonic clock. */
module Trust {
  import opened Text
  import Names

  const KEY_BYTES: nat := 32

  /** A device identity: a 256-bit public key. */
  type NodeId = key: seq<Byte> | |key| == KEY_BYTES witness seq(KEY_BYTES, _ => 0)

  type U32 = n: nat | n <= U32_MAX witness 0

  datatype Pending = Pending(token: string, expiresAt: nat, expiresAtUnix: nat)

  datatype Invitation = Invitation(expiresAt: nat, createdBy: NodeId)

  datatype State = State(
    pending: Option<Pending>,
    authorized: set<NodeId>,
    names: map<NodeId, string>,
    invitations: map<string, Invitation>,
    failed: nat,
    maxAttempts: U32)

  datatype Outcome = Bound | BoundViaInvitation | AlreadyAuthorized | NoActiveToken | TokenMismatch | Revoked

  datatype Op =
    | Mint(now: nat, ttl: nat, expiresAtUnix: nat, token: string)
    | Invite(now: nat, ttl: nat, inviter: NodeId, maxPending: nat, token: string)
    | Bind(now: nat, node: NodeId, presented: string)
    | Revoke(node: NodeId)
    | Rename(node: NodeId, name: string)
    | SetMax(max: U32)

  datatype Reply = Accepted | Refused | Answer(outcome: Outcome)

  predicate Allowed(o: Outcome) {
    o == Bound || o == BoundViaInvitation || o == AlreadyAuthorized
  }

  /** About 100 years. */
  const MAX_TTL: nat := 100 * 365 * 24 * 3600 * 1_000_000_000

  function ClampTtl(ttl: nat): nat { if ttl < MAX_TTL then ttl else MAX_TTL }

  function Unexpired(invitations: map<string, Invitation>, now: nat): map<string, Invitation> {
    map t | t in invitations && now < invitations[t].expiresAt :: invitations[t]
  }

  predicate PendingActive(s: State, now: nat) {
    s.pending.Some? && now < s.pending.value.expiresAt
  }

  predicate TokenLive(s: State, now: nat, value: string) {
    PendingActive(s, now) && s.pending.value.token == value
  }

  predicate InvitationLive(s: State, now: nat, value: string) {
    value in s.invitations && now < s.invitations[value].expiresAt
  }

  function BindStep(s: State, now: nat, node: NodeId, presented: string): (State, Outcome) {
    if node in s.authorized then (s, AlreadyAuthorized)
    else
      var s := s.(invitations := Unexpired(s.invitations, now));
      if TokenLive(s, now, presented) then
        (s.(authorized := s.authorized + {node}, failed := 0), Bound)
      else if presented in s.invitations then
        (s.(invitations := s.invitations - {presented}, authorized := s.authorized + {node}, failed := 0),
         BoundViaInvitation)
      else if !PendingActive(s, now) then (s.(pending := None), NoActiveToken)
      else if s.failed + 1 >= s.maxAttempts then (s.(pending := None, failed := s.failed + 1), Outcome.Revoked)
      else (s.(failed := s.failed + 1), TokenMismatch)
  }

  function InviteStep(s: State, now: nat, ttl: nat, inviter: NodeId, maxPending: nat, token: string): (State, Reply) {
    var live := Unexpired(s.invitations, now);
    if |live| >= (if maxPending > 1 then maxPending else 1) then (s.(invitations := live), Refused)
    else (s.(invitations := live[token := Invitation(now + ClampTtl(ttl), inviter)]), Accepted)
  }

  function RenameStep(s: State, node: NodeId, name: string): (State, Reply) {
    if node !in s.authorized then (s, Refused)
    else
      match Names.SanitizedDeviceName(name)
      case Some(n) => (s.(names := s.names[node := n]), Accepted)
      case None => (s.(names := s.names - {node}), Accepted)
  }

  function Step(s: State, op: Op): (State, Reply) {
    match op
    case Mint(now, ttl, unix, token) =>
      (s.(pending := Some(Pending(token, now + ClampTtl(ttl), unix)), failed := 0), Accepted)
    case Invite(now, ttl, inviter, maxPending, token) => InviteStep(s, now, ttl, inviter, maxPending, token)
    case Bind(now, node, presented) =>
      var (t, o) := BindStep(s, now, node, presented);
      (t, Answer(o))
    case Revoke(node) =>
      if node in s.authorized then (s.(authorized := s.authorized - {node}, names := s.names - {node}), Accepted)
      else (s, Refused)
    case Rename(node, name) => RenameStep(s, node, name)
    case SetMax(max) => (s.(maxAttempts := max), Accepted)
  }

  function Run(s: State, ops: seq<Op>): State {
    if ops == [] then s else Step(Run(s, ops[..|ops| - 1]), ops[|ops| - 1]).0
  }

  /** The answers given to the operations of a run, in order. */
  function Replies(s: State, ops: seq<Op>): (r: seq<Reply>)
    ensures |r| == |ops|
  {
    if ops == [] then []
    else
      var p := ops[..|ops| - 1];
      Replies(s, p) + [Step(Run(s, p), ops[|ops| - 1]).1]
  }

  lemma RunAppend(s: State, ops: seq<Op>, op: Op)
    ensures Run(s, ops + [op]) == Step(Run(s, ops), op).0
    ensures Replies(s, ops + [op]) == Replies(s, ops) + [Step(Run(s, ops), op).1]
  {
  }

  /** Each answer is the one the state reached so far gives. */
  lemma {:induction false} ReplyAt(s: State, ops: seq<Op>, i: nat)
    requires i < |ops|
    ensures Replies(s, ops)[i] == Step(Run(s, ops[..i]), ops[i]).1
    ensures Replies(s, ops[..i]) == Replies(s, ops)[..i]
  {
    var p := ops[..|ops| - 1];
    if i < |p| {
      ReplyAt(s, p, i);
      assert p[..i] == ops[..i];
    }
  }

  /** What a daemon starts with: devices and names from disk, and no credentials. */
  ghost predicate Initial(s: State) {
    s.pending == None && s.invitations == map[] && s.failed == 0 && s.names.Keys <= s.authorized
  }

  // ---------------------------------------------------------------- invariants of one run

  /** Only authorized devices have names, and the failure counter can still be incremented in 32
      bits while a token is pending. */
  ghost predicate Inv(s: State) {
    && s.names.Keys <= s.authorized
    && (s.pending.Some? ==> s.failed < U32_MAX)
  }

  lemma StepKeepsInv(s: State, op: Op)
    requires Inv(s)
    ensures Inv(Step(s, op).0)
  {
  }

  lemma {:induction false} RunKeepsInv(s: State, ops: seq<Op>)
    requires Inv(s)
    ensures Inv(Run(s, ops))
  {
    if ops != [] {
      RunKeepsInv(s, ops[..|ops| - 1]);
      StepKeepsInv(Run(s, ops[..|ops| - 1]), ops[|ops| - 1]);
    }
  }

  // ---------------------------------------------------------------- provenance of trust

  ghost predicate NotRevoked(ops: seq<Op>, node: NodeId, from: nat) {
    forall k :: from <= k < |ops| ==> ops[k] != Op.Revoke(node)
  }

  /** The operation is a bind of this device that presents a live credential. */
  predicate Admits(s: State, op: Op, node: NodeId) {
    op.Bind? && op.node == node && (TokenLive(s, op.now, op.presented) || InvitationLive(s, op.now, op.presented))
  }

  /** The i-th operation admits the device and no later one revokes it. */
  ghost predicate AdmittedAt(s: State, ops: seq<Op>, node: NodeId, i: nat)
    requires i < |ops|
  {
    Admits(Run(s, ops[..i]), ops[i], node) && NotRevoked(ops, node, i + 1)
  }

  /** The history alone: loaded and never revoked, or admitted after the last revocation. */
  ghost predicate TrustedBy(s: State, ops: seq<Op>, node: NodeId) {
    || (node in s.authorized && NotRevoked(ops, node, 0))
    || exists i :: 0 <= i < |ops| && AdmittedAt(s, ops, node, i)
  }

  lemma StepTrust(s: State, op: Op, node: NodeId)
    ensures node in Step(s, op).0.authorized
       <==> (op != Op.Revoke(node) && node in s.authorized) || Admits(s, op, node)
  {
  }

  /** A bind attempt is answered positively exactly when the device is trusted afterwards. */
  lemma BindTrusts(s: State, now: nat, node: NodeId, presented: string)
    ensures Allowed(BindStep(s, now, node, presented).1) <==> node in BindStep(s, now, node, presented).0.authorized
  {
  }

  lemma AdmittedStays(s: State, ops: seq<Op>, op: Op, node: NodeId, i: nat)
    requires i < |ops|
    ensures AdmittedAt(s, ops + [op], node, i) <==> AdmittedAt(s, ops, node, i) && op != Op.Revoke(node)
  {
    assert (ops + [op])[i] == ops[i] && (ops + [op])[..i] == ops[..i];
    NotRevokedLast(ops, op, node, i + 1);
  }

  lemma TrustStays(s: State, ops: seq<Op>, op: Op, node: NodeId)
    requires TrustedBy(s, ops, node) && op != Op.Revoke(node)
    ensures TrustedBy(s, ops + [op], node)
  {
    NotRevokedLast(ops, op, node, 0);
    if i :| 0 <= i < |ops| && AdmittedAt(s, ops, node, i) {
      AdmittedStays(s, ops, op, node, i);
    }
  }

  lemma TrustWasThere(s: State, ops: seq<Op>, op: Op, node: NodeId)
    requires TrustedBy(s, ops + [op], node) && !Admits(Run(s, ops), op, node)
    ensures TrustedBy(s, ops, node) && op != Op.Revoke(node)
  {
    NotRevokedLast(ops, op, node, 0);
    if i :| 0 <= i < |ops + [op]| && AdmittedAt(s, ops + [op], node, i) {
      assert i < |ops| by { assert (ops + [op])[..|ops|] == ops; }
      AdmittedStays(s, ops, op, node, i);
    }
  }

  lemma TrustedByLast(s: State, ops: seq<Op>, op: Op, node: NodeId)
    ensures TrustedBy(s, ops + [op], node)
       <==> (op != Op.Revoke(node) && TrustedBy(s, ops, node)) || Admits(Run(s, ops), op, node)
  {
    var all := ops + [op];
    if Admits(Run(s, ops), op, node) {
      assert all[..|ops|] == ops && all[|ops|] == op;
      assert AdmittedAt(s, all, node, |ops|);
    } else if TrustedBy(s, all, node) {
      TrustWasThere(s, ops, op, node);
    } else if TrustedBy(s, ops, node) && op != Op.Revoke(node) {
      TrustStays(s, ops, op, node);
    }
  }

  lemma NotRevokedLast(ops: seq<Op>, op: Op, node: NodeId, from: nat)
    requires from <= |ops|
    ensures NotRevoked(ops + [op], node, from) <==> NotRevoked(ops, node, from) && op != Op.Revoke(node)
  {
    var all := ops + [op];
    assert all[|ops|] == op;
    assert forall k :: 0 <= k < |ops| ==> all[k] == ops[k];
  }

  /** The authorized set is exactly what the history says it is. */
  lemma {:induction false} Provenance(s: State, ops: seq<Op>, node: NodeId)
    ensures node in Run(s, ops).authorized <==> TrustedBy(s, ops, node)
  {
    if ops == [] {
      assert NotRevoked(ops, node, 0);
    } else {
      var p, op := ops[..|ops| - 1], ops[|ops| - 1];
      Provenance(s, p, node);
      StepTrust(Run(s, p), op, node);
      TrustedByLast(s, p, op, node);
      assert ops == p + [op];
    }
  }

  /** The i-th operation issued an invitation. */
  predicate Issues(s: State, ops: seq<Op>, i: nat)
    requires i < |ops|
  {
    ops[i].Invite? && Replies(s, ops)[i] == Accepted
  }

  /** The i-th operation spent the invitation with this value. */
  predicate Redeems(s: State, ops: seq<Op>, i: nat, value: string)
    requires i < |ops|
  {
    ops[i].Bind? && ops[i].presented == value && Replies(s, ops)[i] == Answer(BoundViaInvitation)
  }

  /** When the credential issued by the j-th operation stops being valid. */
  function Deadline(op: Op): nat
    requires op.Mint? || op.Invite?
  {
    op.now + ClampTtl(op.ttl)
  }

  /** Only a mint sets the pending token; everything else keeps it or drops it. */
  lemma StepPending(s: State, op: Op)
    ensures
      var t := Step(s, op).0;
      if op.Mint? then t.pending == Some(Pending(op.token, Deadline(op), op.expiresAtUnix)) && t.failed == 0
      else t.pending == s.pending || t.pending == None
  {
  }

  /** An invitation in the table was there before, or is the one just issued; a spent one is gone. */
  lemma StepInvitation(s: State, op: Op, value: string)
    ensures
      var (t, r) := Step(s, op);
      && (value in t.invitations ==>
            if op.Invite? && r == Accepted && op.token == value
            then t.invitations[value] == Invitation(Deadline(op), op.inviter)
            else value in s.invitations && s.invitations[value] == t.invitations[value])
      && (op.Bind? && r == Answer(BoundViaInvitation) ==>
            op.presented in s.invitations && op.presented !in t.invitations)
  {
  }

  /** What leaves the table was spent, or its deadline had been reached. */
  lemma StepRemoval(s: State, op: Op, value: string)
    requires value in s.invitations && value !in Step(s, op).0.invitations
    ensures || (op.Bind? && op.presented == value && Step(s, op).1 == Answer(BoundViaInvitation))
            || ClockReached(op, s.invitations[value].expiresAt)
  {
  }

  lemma {:induction false} PendingMinted(s: State, ops: seq<Op>) returns (j: nat)
    requires Initial(s) && Run(s, ops).pending.Some?
    ensures j < |ops| && ops[j].Mint?
    ensures Run(s, ops).pending.value.token == ops[j].token
    ensures Run(s, ops).pending.value.expiresAt == Deadline(ops[j])
    ensures forall k :: j < k < |ops| ==> !ops[k].Mint?
  {
    var p, op := ops[..|ops| - 1], ops[|ops| - 1];
    StepPending(Run(s, p), op);
    if op.Mint? {
      j := |ops| - 1;
    } else {
      j := PendingMinted(s, p);
    }
  }

  lemma {:induction false} InvitationIssued(s: State, ops: seq<Op>, value: string) returns (j: nat)
    requires Initial(s) && value in Run(s, ops).invitations
    ensures j < |ops| && Issues(s, ops, j) && ops[j].token == value
    ensures Run(s, ops).invitations[value] == Invitation(Deadline(ops[j]), ops[j].inviter)
    ensures forall k :: j < k < |ops| ==> !Redeems(s, ops, k, value)
  {
    var p, op := ops[..|ops| - 1], ops[|ops| - 1];
    StepInvitation(Run(s, p), op, value);
    if op.Invite? && op.token == value && Issues(s, ops, |ops| - 1) {
      j := |ops| - 1;
    } else {
      j := InvitationIssued(s, p, value);
      forall k | j < k < |ops|
        ensures !Redeems(s, ops, k, value)
      {
        if k < |p| { assert !Redeems(s, p, k, value); }
      }
    }
  }

  /** `value` is the latest minted pairing token at operation i, and its deadline is ahead. */
  ghost predicate MintedAndLive(ops: seq<Op>, i: nat, value: string, now: nat)
    requires i <= |ops|
  {
    exists j :: 0 <= j < i && ops[j].Mint? && ops[j].token == value && now < Deadline(ops[j])
                && forall k :: j < k < i ==> !ops[k].Mint?
  }

  /** `value` was issued as an invitation before operation i, is unspent, and its deadline is ahead. */
  ghost predicate InvitedAndLive(s: State, ops: seq<Op>, i: nat, value: string, now: nat)
    requires i <= |ops|
  {
    exists j :: 0 <= j < i && Issues(s, ops, j) && ops[j].token == value && now < Deadline(ops[j])
                && forall k :: j < k < i ==> !Redeems(s, ops, k, value)
  }

  /** A live credential was issued by an earlier operation of the same run. */
  lemma AdmissionIssued(s: State, ops: seq<Op>, i: nat, node: NodeId)
    requires Initial(s) && i < |ops| && Admits(Run(s, ops[..i]), ops[i], node)
    ensures || MintedAndLive(ops, i, ops[i].presented, ops[i].now)
            || InvitedAndLive(s, ops, i, ops[i].presented, ops[i].now)
  {
    var p := ops[..i];
    ReplyAt(s, ops, i);
    if TokenLive(Run(s, p), ops[i].now, ops[i].presented) {
      var j := PendingMinted(s, p);
      assert ops[j] == p[j] && forall k :: j < k < i ==> ops[k] == p[k];
    } else {
      var j := InvitationIssued(s, p, ops[i].presented);
      assert Issues(s, ops, j);
      assert forall k :: j < k < i ==> (Redeems(s, ops, k, ops[i].presented) <==> Redeems(s, p, k, ops[i].presented));
    }
  }

  /** Every device a daemon trusts was trusted when it started and not revoked since, or bound,
      after its last revocation, with a value this run had minted or issued as an invitation and
      whose deadline had not passed. */
  lemma TrustIsPaired(s: State, ops: seq<Op>, node: NodeId)
    requires Initial(s) && node in Run(s, ops).authorized
    ensures
      || (node in s.authorized && NotRevoked(ops, node, 0))
      || exists i ::
           && 0 <= i < |ops| && ops[i].Bind? && ops[i].node == node && NotRevoked(ops, node, i + 1)
           && (|| MintedAndLive(ops, i, ops[i].presented, ops[i].now)
               || InvitedAndLive(s, ops, i, ops[i].presented, ops[i].now))
  {
    Provenance(s, ops, node);
    if !(node in s.authorized && NotRevoked(ops, node, 0)) {
      var i :| 0 <= i < |ops| && AdmittedAt(s, ops, node, i);
      AdmissionIssued(s, ops, i, node);
    }
  }

  // ---------------------------------------------------------------- isolation

  predicate Concerns(op: Op, node: NodeId) {
    (op.Bind? || op.Revoke? || op.Rename?) && op.node == node
  }

  predicate SameDevice(a: State, b: State, node: NodeId) {
    && (node in a.authorized <==> node in b.authorized)
    && (node in a.names <==> node in b.names)
    && (node in a.names ==> a.names[node] == b.names[node])
  }

  /** No sequence of operations on other devices touches a device's trust or name. */
  lemma {:induction false} Isolation(s: State, ops: seq<Op>, node: NodeId)
    requires forall k :: 0 <= k < |ops| ==> !Concerns(ops[k], node)
    ensures SameDevice(s, Run(s, ops), node)
  {
    if ops != [] {
      var p, op := ops[..|ops| - 1], ops[|ops| - 1];
      Isolation(s, p, node);
      StepIsolated(Run(s, p), op, node);
    }
  }

  lemma StepIsolated(s: State, op: Op, node: NodeId)
    requires !Concerns(op, node)
    ensures SameDevice(s, Step(s, op).0, node)
  {
  }

  // ---------------------------------------------------------------- names

  function NameOf(s: State, node: NodeId): Option<string> {
    if node in s.names then Some(s.names[node]) else None
  }

  /** The operation renames or removes this device. */
  predicate Renames(op: Op, node: NodeId) {
    (op.Rename? || op.Revoke?) && op.node == node
  }

  lemma NameKept(s: State, op: Op, node: NodeId)
    requires !Renames(op, node)
    ensures NameOf(Step(s, op).0, node) == NameOf(s, node)
  {
  }

  lemma {:induction false} NameStays(s: State, ops: seq<Op>, node: NodeId)
    requires forall k :: 0 <= k < |ops| ==> !Renames(ops[k], node)
    ensures NameOf(Run(s, ops), node) == NameOf(s, node)
  {
    if ops != [] {
      NameStays(s, ops[..|ops| - 1], node);
      NameKept(Run(s, ops[..|ops| - 1]), ops[|ops| - 1], node);
    }
  }

  /** Renaming a trusted device shows the sanitized name, or none when nothing visible is left of
      it, until that device is renamed again or revoked, whatever happens in between. */
  lemma RenameShows(s: State, node: NodeId, name: string, ops: seq<Op>)
    requires node in s.authorized && forall k :: 0 <= k < |ops| ==> !Renames(ops[k], node)
    ensures NameOf(Run(Step(s, Rename(node, name)).0, ops), node) == Names.SanitizedDeviceName(name)
  {
    NameStays(Step(s, Rename(node, name)).0, ops, node);
  }

  lemma StepNameClean(s: State, op: Op, node: NodeId)
    ensures
      var after := NameOf(Step(s, op).0, node);
      after.Some? ==> after == NameOf(s, node) || Names.SanitizedDeviceName(after.value) == after
  {
    if op.Rename? && op.node == node && Names.SanitizedDeviceName(op.name).Some? {
      Names.DeviceNameCanonical(op.name, Names.SanitizedDeviceName(op.name).value);
    }
  }

  /** Any name a run shows was loaded at the start or is in sanitized form. */
  lemma {:induction false} NamesClean(s: State, ops: seq<Op>, node: NodeId)
    ensures
      var name := NameOf(Run(s, ops), node);
      name.Some? ==> name == NameOf(s, node) || Names.SanitizedDeviceName(name.value) == name
  {
    if ops != [] {
      NamesClean(s, ops[..|ops| - 1], node);
      StepNameClean(Run(s, ops[..|ops| - 1]), ops[|ops| - 1], node);
    }
  }

  // ---------------------------------------------------------------- invitations

  /** The values issued, and how many times one was. */
  function Issued(s: State, ops: seq<Op>): set<string> {
    if ops == [] then {}
    else
      var n := |ops| - 1;
      Issued(s, ops[..n]) + if Issues(s, ops, n) then {ops[n].token} else {}
  }

  function IssueCount(s: State, ops: seq<Op>): nat {
    if ops == [] then 0
    else IssueCount(s, ops[..|ops| - 1]) + if Issues(s, ops, |ops| - 1) then 1 else 0
  }

  /** The values spent as invitations, and how many times one was. */
  function Redeemed(s: State, ops: seq<Op>): set<string> {
    if ops == [] then {}
    else
      var n := |ops| - 1;
      Redeemed(s, ops[..n]) + if ops[n].Bind? && Redeems(s, ops, n, ops[n].presented) then {ops[n].presented} else {}
  }

  function RedemptionCount(s: State, ops: seq<Op>): nat {
    if ops == [] then 0
    else
      var n := |ops| - 1;
      RedemptionCount(s, ops[..n]) + if ops[n].Bind? && Redeems(s, ops, n, ops[n].presented) then 1 else 0
  }

  lemma {:induction false} IssuedIndex(s: State, ops: seq<Op>, value: string) returns (i: nat)
    requires value in Issued(s, ops)
    ensures i < |ops| && Issues(s, ops, i) && ops[i].token == value
  {
    var n := |ops| - 1;
    if Issues(s, ops, n) && ops[n].token == value {
      i := n;
    } else {
      i := IssuedIndex(s, ops[..n], value);
    }
  }

  lemma {:induction false} RedeemedMember(s: State, ops: seq<Op>, i: nat, value: string)
    requires i < |ops| && Redeems(s, ops, i, value)
    ensures value in Redeemed(s, ops)
  {
    var p := ops[..|ops| - 1];
    if i < |p| {
      assert Redeems(s, p, i, value);
      RedeemedMember(s, p, i, value);
    }
  }

  /** Freshly drawn invitation values are distinct. */
  ghost predicate DistinctDraws(ops: seq<Op>) {
    forall i, j :: 0 <= i < j < |ops| && ops[i].Invite? && ops[j].Invite? ==> ops[i].token != ops[j].token
  }

  predicate ClockReached(op: Op, t: nat) {
    (op.Bind? || op.Invite?) && op.now >= t
  }

  /** Issued by operation i, and a later operation read the clock at or past the deadline. */
  ghost predicate Lapsed(s: State, ops: seq<Op>, value: string) {
    exists i, k :: 0 <= i < k < |ops| && Issues(s, ops, i) && ops[i].token == value
                   && ClockReached(ops[k], Deadline(ops[i]))
  }

  lemma LapsedStays(s: State, p: seq<Op>, op: Op, value: string)
    requires Lapsed(s, p, value)
    ensures Lapsed(s, p + [op], value)
  {
    var ops := p + [op];
    var i, k :| 0 <= i < k < |p| && Issues(s, p, i) && p[i].token == value && ClockReached(p[k], Deadline(p[i]));
    RunAppend(s, p, op);
    assert ops[i] == p[i] && ops[k] == p[k] && Issues(s, ops, i);
  }

  /** The account: issued, outstanding and spent values, and the two counts. */
  ghost predicate Balanced(issued: set<string>, out: set<string>, spent: set<string>, issues: nat, redemptions: nat) {
    out + spent <= issued && out !! spent && issues == |issued| && redemptions == |spent|
  }

  ghost predicate Ledger(s: State, ops: seq<Op>) {
    && Balanced(Issued(s, ops), Run(s, ops).invitations.Keys, Redeemed(s, ops),
                IssueCount(s, ops), RedemptionCount(s, ops))
    && forall v :: v in Issued(s, ops) && v !in Run(s, ops).invitations && v !in Redeemed(s, ops) ==> Lapsed(s, ops, v)
  }

  lemma BalanceStep(s: State, op: Op, issued: set<string>, spent: set<string>, issues: nat, redemptions: nat)
    requires Balanced(issued, s.invitations.Keys, spent, issues, redemptions)
    requires op.Invite? ==> op.token !in issued
    ensures
      var (t, r) := Step(s, op);
      var isIssue, isSpend := op.Invite? && r == Accepted, op.Bind? && r == Answer(BoundViaInvitation);
      Balanced(issued + (if isIssue then {op.token} else {}), t.invitations.Keys,
               spent + (if isSpend then {op.presented} else {}),
               issues + (if isIssue then 1 else 0), redemptions + (if isSpend then 1 else 0))
  {
    var (t, r) := Step(s, op);
    forall v | v in t.invitations
      ensures (op.Invite? && r == Accepted && v == op.token) || v in s.invitations
    {
      StepInvitation(s, op, v);
    }
    StepInvitation(s, op, "");
  }

  lemma LedgerStep(s: State, p: seq<Op>, op: Op)
    requires Initial(s) && Ledger(s, p) && DistinctDraws(p + [op])
    ensures Ledger(s, p + [op])
  {
    var ops := p + [op];
    NewDraw(s, p, op);
    LedgerUnfold(s, p, op);
    BalanceStep(Run(s, p), op, Issued(s, p), Redeemed(s, p), IssueCount(s, p), RedemptionCount(s, p));
    forall v | v in Issued(s, ops) && v !in Run(s, ops).invitations && v !in Redeemed(s, ops)
      ensures Lapsed(s, ops, v)
    {
      LapsedStep(s, p, op, v);
    }
  }

  lemma LedgerUnfold(s: State, p: seq<Op>, op: Op)
    ensures
      var ops, t, r := p + [op], Run(s, p), Step(Run(s, p), op).1;
      var isIssue, isSpend := op.Invite? && r == Accepted, op.Bind? && r == Answer(BoundViaInvitation);
      && Run(s, ops) == Step(t, op).0
      && Issued(s, ops) == Issued(s, p) + (if isIssue then {op.token} else {})
      && Redeemed(s, ops) == Redeemed(s, p) + (if isSpend then {op.presented} else {})
      && IssueCount(s, ops) == IssueCount(s, p) + (if isIssue then 1 else 0)
      && RedemptionCount(s, ops) == RedemptionCount(s, p) + (if isSpend then 1 else 0)
  {
    var ops := p + [op];
    assert ops[..|p|] == p;
    RunAppend(s, p, op);
  }

  lemma NewDraw(s: State, p: seq<Op>, op: Op)
    requires DistinctDraws(p + [op])
    ensures op.Invite? ==> op.token !in Issued(s, p)
  {
    var ops := p + [op];
    if op.Invite? {
      forall v | v in Issued(s, p)
        ensures v != op.token
      {
        var i := IssuedIndex(s, p, v);
        assert ops[i] == p[i] && ops[|p|] == op;
      }
    }
  }

  lemma LapsedStep(s: State, p: seq<Op>, op: Op, v: string)
    requires Initial(s) && Ledger(s, p)
    requires v in Issued(s, p + [op]) && v !in Run(s, p + [op]).invitations && v !in Redeemed(s, p + [op])
    ensures Lapsed(s, p + [op], v)
  {
    var ops, t := p + [op], Run(s, p);
    assert ops[..|p|] == p;
    RunAppend(s, p, op);
    IssuedStays(t, op);
    if v in t.invitations {
      StepRemoval(t, op, v);
      var i := InvitationIssued(s, p, v);
      assert ops[i] == p[i] && ops[|p|] == op && Issues(s, ops, i);
    } else {
      LapsedStays(s, p, op, v);
    }
  }

  lemma IssuedStays(s: State, op: Op)
    ensures op.Invite? && Step(s, op).1 == Accepted ==> op.token in Step(s, op).0.invitations
  {
  }

  lemma {:induction false} LedgerHolds(s: State, ops: seq<Op>)
    requires Initial(s) && DistinctDraws(ops)
    ensures Ledger(s, ops)
  {
    if ops == [] {
      assert Issued(s, ops) == {} && Redeemed(s, ops) == {};
    } else {
      var p, op := ops[..|ops| - 1], ops[|ops| - 1];
      assert ops == p + [op];
      LedgerHolds(s, p);
      LedgerStep(s, p, op);
    }
  }

  /** Every invitation issued is outstanding, spent, or gone because its deadline passed, and the
      three together account for all of them. */
  lemma InvitationsConserved(s: State, ops: seq<Op>)
    requires Initial(s) && DistinctDraws(ops)
    ensures
      var lapsed := Issued(s, ops) - Run(s, ops).invitations.Keys - Redeemed(s, ops);
      && IssueCount(s, ops) == |Run(s, ops).invitations| + RedemptionCount(s, ops) + |lapsed|
      && forall v :: v in lapsed ==> Lapsed(s, ops, v)
  {
    LedgerHolds(s, ops);
    ThreeParts(Issued(s, ops), Run(s, ops).invitations.Keys, Redeemed(s, ops));
    assert |Run(s, ops).invitations| == |Run(s, ops).invitations.Keys|;
  }

  lemma ThreeParts<T>(all: set<T>, a: set<T>, b: set<T>)
    requires a + b <= all && a !! b
    ensures |all| == |a| + |b| + |all - a - b|
  {
  }

  /** No invitation is spent twice. */
  lemma {:induction false} RedeemedOnce(s: State, ops: seq<Op>, i: nat, k: nat, value: string)
    requires Initial(s) && DistinctDraws(ops)
    requires i < k < |ops| && Redeems(s, ops, i, value)
    ensures !Redeems(s, ops, k, value)
  {
    var p := ops[..k];
    LedgerHolds(s, p);
    ReplyAt(s, ops, k);
    RedeemedMember(s, p, i, value);
    StepInvitation(Run(s, p), ops[k], value);
  }

  /** With the cap held at `cap`, no more invitations than that are ever outstanding. */
  lemma {:induction false} OutstandingBounded(s: State, ops: seq<Op>, cap: nat)
    requires s.invitations == map[]
    requires forall k :: 0 <= k < |ops| && ops[k].Invite? ==> ops[k].maxPending <= cap
    ensures |Run(s, ops).invitations| <= if cap > 1 then cap else 1
  {
    if ops != [] {
      var p, op := ops[..|ops| - 1], ops[|ops| - 1];
      OutstandingBounded(s, p, cap);
      StepOutstanding(Run(s, p), op);
    }
  }

  lemma StepOutstanding(s: State, op: Op)
    ensures
      var n := |Step(s, op).0.invitations|;
      n <= |s.invitations| || (op.Invite? && n <= if op.maxPending > 1 then op.maxPending else 1)
  {
    if op.Invite? && Step(s, op).1 == Accepted {
      GrowsByOne(Unexpired(s.invitations, op.now), op.token, Invitation(Deadline(op), op.inviter));
    } else {
      StepShrinks(s, op);
      SubsetSmaller(Step(s, op).0.invitations.Keys, s.invitations.Keys);
    }
  }

  lemma StepShrinks(s: State, op: Op)
    requires !(op.Invite? && Step(s, op).1 == Accepted)
    ensures Step(s, op).0.invitations.Keys <= s.invitations.Keys
  {
  }

  lemma GrowsByOne(m: map<string, Invitation>, t: string, i: Invitation)
    ensures |m[t := i]| <= |m| + 1
  {
  }

  lemma SubsetSmaller<T>(a: set<T>, b: set<T>)
    requires a <= b
    ensures |a| <= |b|
  {
    assert b == a + (b - a);
  }

  // ---------------------------------------------------------------- lockout

  predicate Failure(r: Reply) { r == Answer(TokenMismatch) || r == Answer(Outcome.Revoked) }

  predicate FreshBind(r: Reply) { r == Answer(Bound) || r == Answer(BoundViaInvitation) }

  function Failures(s: State, ops: seq<Op>): nat {
    if ops == [] then 0
    else Failures(s, ops[..|ops| - 1]) + if Failure(Replies(s, ops)[|ops| - 1]) then 1 else 0
  }

  function FreshBinds(s: State, ops: seq<Op>): nat {
    if ops == [] then 0
    else FreshBinds(s, ops[..|ops| - 1]) + if FreshBind(Replies(s, ops)[|ops| - 1]) then 1 else 0
  }

  /** No operation mints a new token or changes the attempt limit. */
  ghost predicate OnePeriod(ops: seq<Op>) {
    forall k :: 0 <= k < |ops| ==> !ops[k].Mint? && !ops[k].SetMax?
  }

  /** The failures that `binds` fresh binds pay for, `max - 1` each. */
  function Budget(binds: nat, max: nat): (n: int) {
    if binds == 0 then 0 else Budget(binds - 1, max) + max - 1
  }

  lemma {:induction false} BudgetProduct(binds: nat, max: nat)
    ensures Budget(binds, max) == binds * (max - 1)
  {
    if binds > 0 {
      BudgetProduct(binds - 1, max);
      assert binds * (max - 1) == (binds - 1) * (max - 1) + (max - 1);
    }
  }

  /** While the token is pending the counter is below the limit; each fresh bind buys at most
      `max - 1` further failures, and the failure that revokes the token is the last. */
  predicate WithinBudget(t: State, max: nat, failures: nat, binds: nat) {
    && t.maxAttempts == max
    && if t.pending.Some? then t.failed < max && failures <= Budget(binds, max) + t.failed
       else failures <= Budget(binds, max) + max
  }

  /** How an operation within one period moves the pending token and the failure counter. */
  predicate CounterMove(t: State, t': State, r: Reply) {
    && t'.maxAttempts == t.maxAttempts
    && if FreshBind(r) then t'.pending == t.pending && t'.failed == 0
       else if r == Answer(TokenMismatch) then
         t.pending.Some? && t'.pending == t.pending && t'.failed == t.failed + 1 < t.maxAttempts
       else if r == Answer(Outcome.Revoked) then t.pending.Some? && t'.pending.None?
       else t'.failed == t.failed && (t'.pending == t.pending || t'.pending.None?)
  }

  lemma StepMovesCounter(t: State, op: Op)
    requires !op.Mint? && !op.SetMax?
    ensures CounterMove(t, Step(t, op).0, Step(t, op).1)
  {
  }

  lemma BudgetStep(t: State, t': State, r: Reply, max: nat, failures: nat, binds: nat)
    requires max >= 1 && WithinBudget(t, max, failures, binds) && CounterMove(t, t', r)
    ensures WithinBudget(t', max, failures + (if Failure(r) then 1 else 0), binds + (if FreshBind(r) then 1 else 0))
  {
  }

  lemma {:induction false} FailureBudget(s: State, ops: seq<Op>)
    requires s.pending.Some? && s.failed == 0 && s.maxAttempts >= 1 && OnePeriod(ops)
    ensures WithinBudget(Run(s, ops), s.maxAttempts, Failures(s, ops), FreshBinds(s, ops))
  {
    if ops != [] {
      var p, op := ops[..|ops| - 1], ops[|ops| - 1];
      FailureBudget(s, p);
      var (t', r) := Step(Run(s, p), op);
      StepMovesCounter(Run(s, p), op);
      BudgetStep(Run(s, p), t', r, s.maxAttempts, Failures(s, p), FreshBinds(s, p));
    }
  }

  /** One minted token survives at most (k + 1)(M - 1) + 1 rejected attempts, where k devices were
      newly bound in the meantime. */
  lemma LockoutBound(s: State, mint: Op, ops: seq<Op>)
    requires mint.Mint? && s.maxAttempts >= 1 && OnePeriod(ops)
    ensures
      var t := Step(s, mint).0;
      Failures(t, ops) <= (FreshBinds(t, ops) + 1) * (s.maxAttempts - 1) + 1
  {
    PeriodBound(Step(s, mint).0, ops);
  }

  lemma PeriodBound(s: State, ops: seq<Op>)
    requires s.pending.Some? && s.failed == 0 && s.maxAttempts >= 1 && OnePeriod(ops)
    ensures Failures(s, ops) <= (FreshBinds(s, ops) + 1) * (s.maxAttempts - 1) + 1
  {
    var max: nat, k := s.maxAttempts, FreshBinds(s, ops);
    assert Failures(s, ops) <= Budget(k, max) + max by { FailureBudget(s, ops); }
    BudgetTotal(k, max);
  }

  lemma BudgetTotal(binds: nat, max: nat)
    ensures Budget(binds, max) + max == (binds + 1) * (max - 1) + 1
  {
  }

  predicate NotPending(s: State, value: string) { s.pending.Some? ==> s.pending.value.token != value }

  lemma NotPendingStep(s: State, op: Op, value: string)
    requires NotPending(s, value) && !(op.Mint? && op.token == value)
    ensures
      var (t, r) := Step(s, op);
      NotPending(t, value) && (op.Bind? && op.presented == value ==> r != Answer(Bound))
  {
  }

  /** A value that is not the pending token becomes it only by being minted. */
  lemma {:induction false} StaysNotPending(s: State, ops: seq<Op>, value: string)
    requires NotPending(s, value) && forall k :: 0 <= k < |ops| ==> !(ops[k].Mint? && ops[k].token == value)
    ensures NotPending(Run(s, ops), value)
    ensures forall k :: 0 <= k < |ops| && ops[k].Bind? && ops[k].presented == value ==>
              Replies(s, ops)[k] != Answer(Bound)
  {
    if ops != [] {
      var p, op := ops[..|ops| - 1], ops[|ops| - 1];
      StaysNotPending(s, p, value);
      NotPendingStep(Run(s, p), op, value);
    }
  }

  lemma UninvitedStep(s: State, op: Op, value: string)
    requires value !in s.invitations && !(op.Invite? && op.token == value)
    ensures
      var (t, r) := Step(s, op);
      value !in t.invitations && (op.Bind? && op.presented == value ==> r != Answer(BoundViaInvitation))
  {
  }

  lemma {:induction false} StaysUninvited(s: State, ops: seq<Op>, value: string)
    requires value !in s.invitations && forall k :: 0 <= k < |ops| ==> !(ops[k].Invite? && ops[k].token == value)
    ensures value !in Run(s, ops).invitations
    ensures forall k :: 0 <= k < |ops| && ops[k].Bind? && ops[k].presented == value ==>
              Replies(s, ops)[k] != Answer(BoundViaInvitation)
  {
    if ops != [] {
      var p, op := ops[..|ops| - 1], ops[|ops| - 1];
      StaysUninvited(s, p, value);
      UninvitedStep(Run(s, p), op, value);
    }
  }

  /** A value that is neither the pending token nor an invitation binds nobody in any run that does
      not mint or issue this very value, whatever else is minted and issued. */
  lemma {:induction false} StaysLockedOut(s: State, ops: seq<Op>, value: string)
    requires NotPending(s, value) && value !in s.invitations
    requires forall k :: 0 <= k < |ops| ==> !(ops[k].Mint? && ops[k].token == value)
    requires forall k :: 0 <= k < |ops| ==> !(ops[k].Invite? && ops[k].token == value)
    ensures NotPending(Run(s, ops), value) && value !in Run(s, ops).invitations
    ensures forall k :: 0 <= k < |ops| && ops[k].Bind? && ops[k].presented == value ==> !FreshBind(Replies(s, ops)[k])
  {
    StaysNotPending(s, ops, value);
    StaysUninvited(s, ops, value);
  }

  /** A token revoked by failed attempts binds nobody as a pairing token until that value is minted
      again, even if other tokens are minted meanwhile; and nobody at all unless the same value is
      or becomes an invitation. Devices trusted before stay trusted. */
  lemma RevokedTokenIsDead(s: State, op: Op, ops: seq<Op>)
    requires op.Bind? && Step(s, op).1 == Answer(Outcome.Revoked)
    requires forall k :: 0 <= k < |ops| ==> !(ops[k].Mint? && ops[k].token == s.pending.value.token)
    ensures
      var (t, value) := (Step(s, op).0, s.pending.value.token);
      && t.authorized == s.authorized
      && (forall k :: 0 <= k < |ops| && ops[k].Bind? && ops[k].presented == value ==>
            Replies(t, ops)[k] != Answer(Bound))
      && (value !in s.invitations && (forall k :: 0 <= k < |ops| ==> !(ops[k].Invite? && ops[k].token == value)) ==>
            forall k :: 0 <= k < |ops| && ops[k].Bind? && ops[k].presented == value ==>
              !FreshBind(Replies(t, ops)[k]))
  {
    var t, value := Step(s, op).0, s.pending.value.token;
    StaysNotPending(t, ops, value);
    if value !in s.invitations && (forall k :: 0 <= k < |ops| ==> !(ops[k].Invite? && ops[k].token == value)) {
      StaysUninvited(t, ops, value);
    }
  }
}
