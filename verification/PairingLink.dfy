/** The pairing link: printed by the server, parsed by the client, and sent back as a bind request. */
module PairingLink {
  import opened Text
  import opened Trust
  import opened TrustStore
  import opened AuthState

  const SCHEME: string := "raemote://bind?"

  function Uri(node: NodeId, token: string, expiresAtUnix: nat): string {
    SCHEME + "node=" + ShowId(node) + "&token=" + token + "&exp=" + Dec(expiresAtUnix)
  }

  datatype Found = Found(node: Option<NodeId>, token: Option<string>)

  /** Read the pairs from left to right; later ones win, unknown keys are ignored. */
  function ReadPairs(pairs: seq<string>, found: Found): Option<Found> {
    if pairs == [] then Some(found)
    else
      match SplitOnce(pairs[0], '=')
      case None => None
      case Some((key, value)) =>
        if key == "node" then
          match ParseId(value)
          case None => None
          case Some(id) => ReadPairs(pairs[1..], found.(node := Some(id)))
        else if key == "token" then ReadPairs(pairs[1..], found.(token := Some(value)))
        else ReadPairs(pairs[1..], found)
  }

  function ParsedUri(uri: string): Option<(NodeId, string)> {
    if !(SCHEME <= uri) then None
    else
      match ReadPairs(Split(uri[|SCHEME|..], '&'), Found(None, None))
      case Some(Found(Some(node), Some(token))) => Some((node, token))
      case _ => None
  }

  method ParseBindUri(uri: string) returns (r: Option<(NodeId, string)>)
    ensures r == ParsedUri(uri)
  {
    if !(SCHEME <= uri) {
      return None;
    }
    var pairs := Split(uri[|SCHEME|..], '&');
    var node: Option<NodeId>, token: Option<string> := None, None;
    for i := 0 to |pairs|
      invariant ReadPairs(pairs[i..], Found(node, token)) == ReadPairs(pairs, Found(None, None))
    {
      assert pairs[i..][1..] == pairs[i + 1..];
      match SplitOnce(pairs[i], '=')
      case None => return None;
      case Some((key, value)) =>
        if key == "node" {
          var id := ParseId(value);
          if id.None? {
            return None;
          }
          node := id;
        } else if key == "token" {
          token := Some(value);
        }
    }
    r := if node.Some? && token.Some? then Some((node.value, token.value)) else None;
  }

  lemma SplitFirst(a: string, c: char, rest: string)
    requires c !in a
    ensures Split(a + [c] + rest, c) == [a] + Split(rest, c)
  {
    FindAt(a, c, rest);
    assert (a + [c] + rest)[..|a|] == a && (a + [c] + rest)[|a| + 1..] == rest;
  }

  lemma SplitNone(a: string, c: char)
    requires c !in a
    ensures Split(a, c) == [a]
  {
  }

  /** A value read from the pairs comes from one of them, so it has no separator in it. */
  lemma {:induction false} TokenPlain(pairs: seq<string>, found: Found, r: Found)
    requires ReadPairs(pairs, found) == Some(r)
    requires forall p :: p in pairs ==> '&' !in p
    requires found.token.Some? ==> '&' !in found.token.value
    ensures r.token.Some? ==> '&' !in r.token.value
  {
    if pairs != [] {
      var (key, value) := SplitOnce(pairs[0], '=').value;
      assert pairs[0] in pairs;
      assert '&' !in value;
      var next :=
        if key == "node" then found.(node := ParseId(value))
        else if key == "token" then found.(token := Some(value))
        else found;
      TokenPlain(pairs[1..], next, r);
    }
  }

  lemma ReadFirst(key: string, value: string)
    requires '=' !in key
    ensures SplitOnce(key + "=" + value, '=') == Some((key, value))
  {
    FindAt(key, '=', value);
  }

  lemma ReadThree(node: NodeId, token: string, exp: string)
    ensures
      ReadPairs(["node" + "=" + ShowId(node), "token" + "=" + token, "exp" + "=" + exp], Found(None, None))
      == Some(Found(Some(node), Some(token)))
  {
    var a, b, c := "node" + "=" + ShowId(node), "token" + "=" + token, "exp" + "=" + exp;
    ParseShown(node);
    assert ReadPairs([c], Found(Some(node), Some(token))) == Some(Found(Some(node), Some(token))) by {
      ReadFirst("exp", exp);
      assert [c][1..] == [];
    }
    assert ReadPairs([b, c], Found(Some(node), None)) == Some(Found(Some(node), Some(token))) by {
      ReadFirst("token", token);
      assert [b, c][1..] == [c];
    }
    ReadFirst("node", ShowId(node));
    assert [a, b, c][1..] == [b, c];
  }

  lemma SplitThree(a: string, b: string, c: string)
    requires '&' !in a && '&' !in b && '&' !in c
    ensures Split(a + "&" + b + "&" + c, '&') == [a, b, c]
  {
    assert a + "&" + b + "&" + c == a + "&" + (b + "&" + c);
    SplitFirst(a, '&', b + "&" + c);
    SplitFirst(b, '&', c);
    SplitNone(c, '&');
  }

  /** A printed link parses back to its node and token exactly when the token has no `&`. */
  lemma LinkRoundTrip(node: NodeId, token: string, exp: nat)
    ensures ParsedUri(Uri(node, token, exp)) == Some((node, token)) <==> '&' !in token
  {
    var uri := Uri(node, token, exp);
    if '&' !in token {
      PlainLinkParses(node, token, exp);
    } else if ParsedUri(uri).Some? {
      ParsedTokenPlain(uri);
    }
  }

  lemma PlainLinkParses(node: NodeId, token: string, exp: nat)
    requires '&' !in token
    ensures ParsedUri(Uri(node, token, exp)) == Some((node, token))
  {
    var a, b, c := "node" + "=" + ShowId(node), "token" + "=" + token, "exp" + "=" + Dec(exp);
    var query := a + "&" + b + "&" + c;
    var uri := Uri(node, token, exp);
    assert uri == SCHEME + query by { LinkText(ShowId(node), token, Dec(exp)); }
    assert SCHEME <= uri && uri[|SCHEME|..] == query;
    SplitThree(a, b, c);
    ReadThree(node, token, Dec(exp));
  }

  lemma LinkText(id: string, token: string, exp: string)
    ensures
      SCHEME + "node=" + id + "&token=" + token + "&exp=" + exp
      == SCHEME + ("node" + "=" + id + "&" + ("token" + "=" + token) + "&" + ("exp" + "=" + exp))
  {
  }

  lemma ParsedTokenPlain(uri: string)
    requires ParsedUri(uri).Some?
    ensures '&' !in ParsedUri(uri).value.1
  {
    var pairs := Split(uri[|SCHEME|..], '&');
    TokenPlain(pairs, Found(None, None), ReadPairs(pairs, Found(None, None)).value);
  }

  // ---------------------------------------------------------------- end to end

  /** What the client sends for a link: the bytes of the token and a line feed. */
  function Request(uri: string): Option<(NodeId, seq<Byte>)> {
    match ParsedUri(uri)
    case None => None
    case Some((node, token)) => Some((node, Utf8(token + "\n")))
  }

  /** What the server answers to a request that arrives in time. */
  function Answered(s: State, now: nat, client: NodeId, request: seq<Byte>, lossy: seq<Byte> -> string):
    Option<Outcome>
  {
    match Presented(true, Some(request), lossy)
    case None => None
    case Some(value) => Some(BindStep(s, now, client, value).1)
  }

  /** Well-formed bytes decode to the text they came from. */
  ghost predicate Decodes(lossy: seq<Byte> -> string) { forall t: string :: lossy(Utf8(t)) == t }

  /** A token that survives the link, the trim and the request limit. */
  predicate Pairable(token: string) {
    '&' !in token && Trimmed(token) && |Utf8(token + "\n")| <= MAX_BIND_REQUEST
  }

  lemma {:induction false} TrimPlain(s: string, c: char)
    requires c !in s
    ensures c !in Trim(s)
  {
    if s != [] && IsWhitespace(s[0]) {
      TrimPlain(s[1..], c);
    }
  }

  /** Scanning the link of a live token binds a new device exactly when the token is `Pairable`.
      A fixed token with an ampersand or with blanks around it passes the configuration check and
      yet can never pair anyone. */
  lemma PairingEndToEnd(s: State, now: nat, server: NodeId, client: NodeId, exp: nat, lossy: seq<Byte> -> string)
    requires PendingActive(s, now) && client !in s.authorized && Decodes(lossy)
    ensures
      var token := s.pending.value.token;
      var request := Request(Uri(server, token, exp));
      (request.Some? && request.value.0 == server && Answered(s, now, client, request.value.1, lossy) == Some(Bound))
      <==> Pairable(token)
  {
    var token := s.pending.value.token;
    var uri := Uri(server, token, exp);
    LinkRoundTrip(server, token, exp);
    TrimFixed(token);
    if ParsedUri(uri).Some? {
      var t := ParsedUri(uri).value.1;
      BoundByText(s, now, client, t, lossy);
      ParsedTokenPlain(uri);
      TrimPlain(t, '&');
    }
  }

  /** A text sent with a line feed binds exactly when it fits and trims to the token. */
  lemma BoundByText(s: State, now: nat, client: NodeId, text: string, lossy: seq<Byte> -> string)
    requires PendingActive(s, now) && client !in s.authorized && Decodes(lossy)
    ensures Answered(s, now, client, Utf8(text + "\n"), lossy) == Some(Bound)
       <==> |Utf8(text + "\n")| <= MAX_BIND_REQUEST && Trim(text) == s.pending.value.token
  {
    assert lossy(Utf8(text + "\n")) == text + "\n";
    TrimDropsNewline(text);
    OnlyTokenBinds(s, now, client, Trim(text));
  }

  lemma OnlyTokenBinds(s: State, now: nat, client: NodeId, presented: string)
    requires PendingActive(s, now) && client !in s.authorized
    ensures BindStep(s, now, client, presented).1 == Bound <==> presented == s.pending.value.token
  {
  }

  /** The configuration check on a fixed token: at least 16 bytes between the outer blanks. */
  predicate AcceptedToken(token: string) { |Utf8(Trim(token))| >= 16 }

  /** Tokens the check accepts and no scanned link can pair with. */
  lemma UnpairableTokens()
    ensures AcceptedToken("0123456789abcdef&") && !Pairable("0123456789abcdef&")
    ensures AcceptedToken(" 0123456789abcdef") && !Pairable(" 0123456789abcdef")
  {
    var a, b := "0123456789abcdef&", " 0123456789abcdef";
    TrimFixed(a);
    assert a[16] == '&';
    assert Trim(b) == b[1..] by {
      assert TrimStart(b) == TrimStart(b[1..]) == b[1..];
    }
  }

  /** Every randomly drawn token is pairable. */
  lemma DrawnTokensPair(drawn: seq<Byte>)
    requires |drawn| == 32
    ensures Pairable(ToHex(drawn, false))
  {
    var t := ToHex(drawn, false);
    AsciiLength(t + "\n");
  }

  lemma {:induction false} AsciiLength(s: string)
    requires forall i :: 0 <= i < |s| ==> s[i] as int < 128
    ensures |Utf8(s)| == |s|
  {
    if s != [] {
      AsciiLength(s[1..]);
    }
  }
}
