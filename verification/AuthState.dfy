/** `AuthState` itself: the fields under its mutex, updated in place, and the bind handler over it.

    Every method is proved against the step of the state machine in `Trust` that it performs, and
    keeps the whole history, so everything proved about runs holds of the object. */
module AuthState {
  import opened Text
  import opened Trust
  import opened TrustStore
  import Names

  // ---------------------------------------------------------------- comparing secrets

  function Xor(a: nat, b: nat): nat {
    if a == 0 && b == 0 then 0 else 2 * Xor(a / 2, b / 2) + if a % 2 != b % 2 then 1 else 0
  }

  function Or(a: nat, b: nat): nat {
    if a == 0 && b == 0 then 0 else 2 * Or(a / 2, b / 2) + if a % 2 == 1 || b % 2 == 1 then 1 else 0
  }

  lemma {:induction false} XorZero(a: nat, b: nat)
    ensures Xor(a, b) == 0 <==> a == b
  {
    if a != 0 || b != 0 {
      XorZero(a / 2, b / 2);
    }
  }

  lemma {:induction false} OrZero(a: nat, b: nat)
    ensures Or(a, b) == 0 <==> a == 0 && b == 0
  {
    if a != 0 || b != 0 {
      OrZero(a / 2, b / 2);
    }
  }

  /** The fold over every byte accepts exactly equal byte strings. */
  method ConstantTimeEq(a: seq<Byte>, b: seq<Byte>) returns (eq: bool)
    ensures eq <==> a == b
  {
    if |a| != |b| {
      return false;
    }
    var diff: nat := 0;
    for i := 0 to |a|
      invariant diff == 0 <==> a[..i] == b[..i]
    {
      XorZero(a[i], b[i]);
      OrZero(diff, Xor(a[i], b[i]));
      diff := Or(diff, Xor(a[i], b[i]));
      assert a[..i + 1] == a[..i] + [a[i]] && b[..i + 1] == b[..i] + [b[i]];
    }
    assert a[..|a|] == a && b[..|b|] == b;
    eq := diff == 0;
  }

  method SameText(a: string, b: string) returns (eq: bool)
    ensures eq <==> a == b
  {
    eq := ConstantTimeEq(Utf8(a), Utf8(b));
    if eq { Utf8Injective(a, b); }
  }

  /** A set is listed in an arbitrary order, each element once. */
  method ListNodes(ids: set<NodeId>) returns (order: seq<NodeId>)
    ensures Elements(order) == ids && |order| == |ids|
  {
    order := [];
    var rest := ids;
    while rest != {}
      invariant rest <= ids && Elements(order) == ids - rest && |order| + |rest| == |ids|
    {
      var id :| id in rest;
      rest := rest - {id};
      order := order + [id];
      assert Elements(order) == Elements(order[..|order| - 1]) + {id};
    }
  }

  // ---------------------------------------------------------------- the object

  datatype TokenInfo = TokenInfo(token: string, expiresAtUnix: nat, ttl: nat)

  const U64_MAX: nat := 0xFFFF_FFFF_FFFF_FFFF
  const NANOS_PER_SEC: nat := 1_000_000_000

  function SaturatingAdd(a: nat, b: nat): nat { if a + b <= U64_MAX then a + b else U64_MAX }

  class AuthState {
    var pending: Option<Pending>
    var authenticated: set<NodeId>
    var names: map<NodeId, string>
    var invitations: map<string, Invitation>
    var failedAttempts: nat
    var maxAttempts: U32
    var store: Option<string>
    var nameStore: map<NodeId, string>
    ghost var start: State
    ghost var history: seq<Op>

    ghost function View(): State
      reads this
    {
      State(pending, authenticated, names, invitations, failedAttempts, maxAttempts)
    }

    /** The object is where its history leads from what it loaded. */
    ghost predicate Valid()
      reads this
    {
      Initial(start) && View() == Run(start, history)
    }

    /** One more operation has been performed. */
    twostate predicate Did(op: Op)
      reads this
    {
      Valid() && start == old(start) && history == old(history) + [op]
    }

    constructor LoadAt(store: Option<string>, nameStore: map<NodeId, string>, maxAttempts: U32)
      ensures Valid() && history == []
      ensures authenticated == LoadedFrom(store) && this.store == store && this.nameStore == nameStore
      ensures names == map id | id in nameStore && id in authenticated :: nameStore[id]
      ensures pending == None && invitations == map[] && this.maxAttempts == maxAttempts
    {
      var ids := LoadAuthorized(store);
      this.authenticated := ids;
      this.names := map id | id in nameStore && id in ids :: nameStore[id];
      this.pending, this.invitations, this.failedAttempts := None, map[], 0;
      this.maxAttempts, this.store, this.nameStore := maxAttempts, store, nameStore;
      new;
      start, history := View(), [];
    }

    /** Append the operation just performed to the history. */
    ghost method Record(op: Op, before: State)
      requires Initial(start) && before == Run(start, history) && View() == Step(before, op).0
      modifies this`history
      ensures history == old(history) + [op] && Valid()
    {
      RunAppend(start, history, op);
      history := history + [op];
    }

    /** Access is granted exactly to the devices the history trusts. */
    method IsAuthorized(node: NodeId) returns (yes: bool)
      requires Valid()
      ensures yes <==> node in authenticated
      ensures yes <==> TrustedBy(start, history, node)
    {
      Provenance(start, history, node);
      yes := node in authenticated;
    }

    method SetMaxAttempts(val: U32)
      requires Valid()
      modifies this`maxAttempts, this`history
      ensures Did(SetMax(val)) && View() == Step(old(View()), SetMax(val)).0
    {
      maxAttempts := val;
      Record(SetMax(val), old(View()));
    }

    /** `drawn` is the random draw, used unless the operator fixed a value. */
    method MintTokenWith(ttl: nat, fixed: Option<string>, drawn: seq<Byte>, now: nat, unixNow: nat)
      returns (info: TokenInfo, ghost op: Op)
      requires Valid()
      modifies this`pending, this`failedAttempts, this`history
      ensures op.Mint? && op.now == now && op.ttl == ttl && op.token == info.token
      ensures Did(op) && View() == Step(old(View()), op).0
      ensures info.token == match fixed case Some(v) => v case None => ToHex(drawn, false)
      ensures info.ttl == ClampTtl(ttl) && info.expiresAtUnix == pending.value.expiresAtUnix
    {
      var clamped := ClampTtl(ttl);
      var token := match fixed case Some(v) => v case None => ToHex(drawn, false);
      info := TokenInfo(token, SaturatingAdd(unixNow, clamped / NANOS_PER_SEC), clamped);
      pending := Some(Pending(token, now + clamped, info.expiresAtUnix));
      failedAttempts := 0;
      op := Mint(now, ttl, info.expiresAtUnix, token);
      Record(op, old(View()));
    }

    method MintInvitation(ttl: nat, inviter: NodeId, maxPending: nat, drawn: seq<Byte>, now: nat, unixNow: nat)
      returns (info: Option<TokenInfo>)
      requires Valid()
      modifies this`invitations, this`history
      ensures Did(Invite(now, ttl, inviter, maxPending, ToHex(drawn, false)))
      ensures
        (View(), if info.Some? then Accepted else Refused)
        == Step(old(View()), Invite(now, ttl, inviter, maxPending, ToHex(drawn, false)))
      ensures info.Some? ==> info.value.token == ToHex(drawn, false) && info.value.ttl == ClampTtl(ttl)
    {
      ghost var op := Invite(now, ttl, inviter, maxPending, ToHex(drawn, false));
      var clamped := ClampTtl(ttl);
      RetainUnexpired(now);
      if |invitations| >= (if maxPending > 1 then maxPending else 1) {
        Record(op, old(View()));
        return None;
      }
      var token := ToHex(drawn, false);
      invitations := invitations[token := Invitation(now + clamped, inviter)];
      Record(op, old(View()));
      info := Some(TokenInfo(token, SaturatingAdd(unixNow, clamped / NANOS_PER_SEC), clamped));
    }

    method RetainUnexpired(now: nat)
      modifies this`invitations
      ensures invitations == Unexpired(old(invitations), now)
    {
      invitations := map t | t in invitations && now < invitations[t].expiresAt :: invitations[t];
    }

    /** Scan every invitation, in an arbitrary order and without an early exit. */
    method MatchInvitation(presented: string) returns (matched: Option<string>)
      ensures matched == if presented in invitations then Some(presented) else None
    {
      matched := None;
      var rest := invitations.Keys;
      while rest != {}
        invariant rest <= invitations.Keys
        invariant matched == if presented in invitations.Keys - rest then Some(presented) else None
      {
        var t :| t in rest;
        rest := rest - {t};
        var eq := SameText(presented, t);
        if eq {
          matched := Some(t);
        }
      }
    }

    /** Insert the device, reset the counter and list the set to save. */
    method Authorize(node: NodeId) returns (order: seq<NodeId>)
      modifies this`authenticated, this`failedAttempts
      ensures authenticated == old(authenticated) + {node} && failedAttempts == 0
      ensures Elements(order) == authenticated
    {
      authenticated := authenticated + {node};
      failedAttempts := 0;
      order := ListNodes(authenticated);
    }

    /** Replace the file; when the write fails the old content stays. */
    method SaveAuthorized(order: seq<NodeId>, written: bool)
      modifies this`store
      ensures if written then LoadedFrom(store) == Elements(order) else store == old(store)
    {
      if written {
        store := Some(FileText(ShowAll(order)));
        SaveThenLoad(order);
      }
    }

    /** The section under the lock: decide, update, and list the set when it has to be saved. */
    method BindLocked(now: nat, node: NodeId, presented: string) returns (outcome: Outcome, order: Option<seq<NodeId>>)
      requires pending.Some? ==> failedAttempts < U32_MAX
      modifies this`pending, this`authenticated, this`invitations, this`failedAttempts
      ensures (View(), outcome) == BindStep(old(View()), now, node, presented)
      ensures order.Some? <==> outcome == Bound || outcome == BoundViaInvitation
      ensures order.Some? ==> Elements(order.value) == authenticated
    {
      order := None;
      if node in authenticated {
        return AlreadyAuthorized, None;
      }
      RetainUnexpired(now);

      var active := None;
      if pending.Some? && now < pending.value.expiresAt {
        active := Some(pending.value.token);
      }
      if active.Some? {
        var eq := SameText(presented, active.value);
        if eq {
          var listing := Authorize(node);
          return Bound, Some(listing);
        }
      }

      var matched := MatchInvitation(presented);
      if matched.Some? {
        invitations := invitations - {matched.value};
        var listing := Authorize(node);
        return BoundViaInvitation, Some(listing);
      }

      if active.None? {
        pending := None;
        return NoActiveToken, None;
      }
      assert failedAttempts + 1 <= U32_MAX;
      failedAttempts := failedAttempts + 1;
      if failedAttempts >= maxAttempts {
        pending := None;
        outcome := Outcome.Revoked;
      } else {
        outcome := TokenMismatch;
      }
    }

    /** Validate a bind attempt. The device ends up authorized exactly when the answer allows it,
        and a save that succeeds leaves on disk exactly the set in memory. */
    method Authenticate(now: nat, node: NodeId, presented: string, written: bool) returns (outcome: Outcome)
      requires Valid()
      modifies this
      ensures Did(Bind(now, node, presented)) && nameStore == old(nameStore)
      ensures (View(), outcome) == BindStep(old(View()), now, node, presented)
      ensures Allowed(outcome) <==> node in authenticated
      ensures
        if written && (outcome == Bound || outcome == BoundViaInvitation) then LoadedFrom(store) == authenticated
        else store == old(store)
    {
      RunKeepsInv(start, history);
      BindTrusts(View(), now, node, presented);
      var order;
      outcome, order := BindLocked(now, node, presented);
      if order.Some? {
        SaveAuthorized(order.value, written);
      }
      Record(Bind(now, node, presented), old(View()));
    }

    /** The section under the lock: remove the device and its name, and list the set to save. */
    method RevokeLocked(node: NodeId) returns (order: Option<seq<NodeId>>)
      modifies this`authenticated, this`names
      ensures (View(), if order.Some? then Accepted else Refused) == Step(old(View()), Op.Revoke(node))
      ensures node !in authenticated && (order.Some? ==> Elements(order.value) == authenticated)
    {
      if node !in authenticated {
        return None;
      }
      authenticated := authenticated - {node};
      names := names - {node};
      var listing := ListNodes(authenticated);
      order := Some(listing);
    }

    /** Remove a device and its name, then save both files; `false` when it was not authorized. */
    method Revoke(node: NodeId, written: bool, namesWritten: bool) returns (removed: bool)
      requires Valid()
      modifies this
      ensures Did(Op.Revoke(node)) && node !in authenticated
      ensures (View(), if removed then Accepted else Refused) == Step(old(View()), Op.Revoke(node))
      ensures if removed && written then LoadedFrom(store) == authenticated else store == old(store)
      ensures nameStore == if removed && namesWritten then names else old(nameStore)
    {
      var order := RevokeLocked(node);
      removed := order.Some?;
      if removed {
        SaveAuthorized(order.value, written);
        if namesWritten {
          nameStore := names;
        }
      }
      Record(Op.Revoke(node), old(View()));
    }

    /** Name an authorized device, or clear its name. */
    method SetDeviceName(node: NodeId, name: string, namesWritten: bool) returns (ok: bool)
      requires Valid()
      modifies this`names, this`nameStore, this`history
      ensures Did(Rename(node, name))
      ensures (View(), if ok then Accepted else Refused) == Step(old(View()), Rename(node, name))
      ensures nameStore == if ok && namesWritten then names else old(nameStore)
    {
      var sanitized := Names.SanitizeDeviceName(name);
      if node !in authenticated {
        Record(Rename(node, name), old(View()));
        return false;
      }
      match sanitized {
        case Some(n) => names := names[node := n];
        case None => names := names - {node};
      }
      if namesWritten {
        nameStore := names;
      }
      ok := true;
      Record(Rename(node, name), old(View()));
    }
  }

  // ---------------------------------------------------------------- the bind handler

  const MAX_BIND_REQUEST: nat := 512

  function DenyReason(o: Outcome): string {
    match o
    case NoActiveToken => "no active token"
    case TokenMismatch => "invalid token"
    case Revoked => "token revoked"
    case _ => ""
  }

  function ReplyLine(o: Outcome): string {
    if Allowed(o) then "OK\n" else "DENY " + DenyReason(o) + "\n"
  }

  /** What a connection gives the handler to authenticate: nothing without a permit, when the read
      failed or timed out, or when the request is too long. */
  function Presented(permit: bool, read: Option<seq<Byte>>, lossy: seq<Byte> -> string): Option<string> {
    if permit && read.Some? && |read.value| <= MAX_BIND_REQUEST then Some(Trim(lossy(read.value))) else None
  }

  /** One bind connection. `lossy` decodes bytes, replacing what is malformed; `delivered` tells
      whether the reply is written before the exchange times out. Nothing presented changes nothing;
      otherwise the attempt counts whether or not the client sees the answer, and the answer is `OK`
      exactly when the client is trusted from now on. */
  method AcceptBind(auth: AuthState, permit: bool, read: Option<seq<Byte>>, lossy: seq<Byte> -> string, node: NodeId,
                    now: nat, written: bool, delivered: bool)
    returns (reply: Option<string>)
    requires auth.Valid()
    modifies auth
    ensures auth.Valid()
    ensures
      match Presented(permit, read, lossy)
      case None => reply == None && auth.View() == old(auth.View()) && auth.store == old(auth.store)
      case Some(value) =>
        var (t, outcome) := BindStep(old(auth.View()), now, node, value);
        auth.View() == t && reply == if delivered then Some(ReplyLine(outcome)) else None
    ensures reply.Some? ==> (reply == Some("OK\n") <==> node in auth.authenticated)
  {
    if !permit || read.None? || |read.value| > MAX_BIND_REQUEST {
      return None;
    }
    var outcome := auth.Authenticate(now, node, Trim(lossy(read.value)), written);
    var line := if Allowed(outcome) then "OK\n" else "DENY " + DenyReason(outcome) + "\n";
    assert !Allowed(outcome) ==> line[0] == 'D';
    reply := if delivered then Some(line) else None;
  }
}
