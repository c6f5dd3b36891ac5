/** Origins, their `host:port` text, and the hide list built from that text. */
module Origins {
  import opened Text

  type Port = n: nat | n <= U16_MAX witness 0

  datatype Ip = V4(bytes: seq<Byte>) | V6(bytes: seq<Byte>)

  type IpAddr = ip: Ip | |ip.bytes| == if ip.V4? then 4 else 16 witness V4([0, 0, 0, 0])

  datatype SocketAddr = SocketAddr(ip: IpAddr, port: Port)

  /** Always plain HTTP; the host is stored without brackets. */
  datatype Origin = Origin(host: string, port: Port)

  // ---------------------------------------------------------------- printing addresses

  /** The standard library's text form of an address, section 4 of RFC 5952 for IPv6. */
  function ShowIp(ip: IpAddr): string {
    if ip.V4? then ShowV4(ip.bytes) else ShowV6(ip.bytes)
  }

  function ShowV4(b: seq<Byte>): string
    requires |b| == 4
  {
    Dec(b[0]) + "." + Dec(b[1]) + "." + Dec(b[2]) + "." + Dec(b[3])
  }

  predicate AddressChar(c: char) { DigitValue(c).Some? || c == ':' || c == '.' }

  function HexNat(n: nat): (s: string)
    ensures s != [] && forall i :: 0 <= i < |s| ==> AddressChar(s[i]) && s[i] != ':'
  {
    if n < 16 then [DigitChar(n, false)] else HexNat(n / 16) + [DigitChar(n % 16, false)]
  }

  function Segment(hi: nat, lo: nat): nat { hi * 256 + lo }

  function Segments(b: seq<Byte>): (s: seq<nat>)
    requires |b| == 16
    ensures |s| == 8
  {
    [Segment(b[0], b[1]), Segment(b[2], b[3]), Segment(b[4], b[5]), Segment(b[6], b[7]),
     Segment(b[8], b[9]), Segment(b[10], b[11]), Segment(b[12], b[13]), Segment(b[14], b[15])]
  }

  function ShowSegments(s: seq<nat>): (r: string)
    ensures forall i :: 0 <= i < |r| ==> AddressChar(r[i])
    ensures r == [] <==> s == []
    ensures |s| > 1 ==> ':' in r
  {
    if s == [] then []
    else if |s| == 1 then HexNat(s[0])
    else HexNat(s[0]) + ":" + ShowSegments(s[1..])
  }

  /** Length of the run of zeros that starts at `i`. */
  function ZeroRun(s: seq<nat>, i: nat): (n: nat)
    requires i <= |s|
    ensures i + n <= |s| && forall k :: i <= k < i + n ==> s[k] == 0
    decreases |s| - i
  {
    if i < |s| && s[i] == 0 then 1 + ZeroRun(s, i + 1) else 0
  }

  /** Start of the first longest run of zeros among those starting at `i` or later. */
  function LongestRun(s: seq<nat>, i: nat): (start: nat)
    requires i <= |s|
    ensures i <= start <= |s|
    decreases |s| - i
  {
    if i == |s| then i
    else
      var later := LongestRun(s, i + 1);
      if ZeroRun(s, i) >= ZeroRun(s, later) then i else later
  }

  predicate V4Mapped(b: seq<Byte>)
    requires |b| == 16
  {
    (forall i :: 0 <= i < 10 ==> b[i] == 0) && b[10] == 255 && b[11] == 255
  }

  function ShowCompressed(s: seq<nat>): string {
    var start := LongestRun(s, 0);
    var len := ZeroRun(s, start);
    if len > 1 then ShowSegments(s[..start]) + "::" + ShowSegments(s[start + len..]) else ShowSegments(s)
  }

  function ShowV6(b: seq<Byte>): string
    requires |b| == 16
  {
    if V4Mapped(b) then "::ffff:" + ShowV4(b[12..]) else ShowCompressed(Segments(b))
  }

  function ShowSocket(a: SocketAddr): string {
    if a.ip.V4? then ShowIp(a.ip) + ":" + Dec(a.port) else "[" + ShowIp(a.ip) + "]:" + Dec(a.port)
  }

  predicate Unspecified(ip: IpAddr) { forall i :: 0 <= i < |ip.bytes| ==> ip.bytes[i] == 0 }

  predicate Loopback(ip: IpAddr) {
    if ip.V4? then ip.bytes[0] == 127
    else ip.bytes[15] == 1 && forall i :: 0 <= i < 15 ==> ip.bytes[i] == 0
  }

  // ---------------------------------------------------------------- origins and authorities

  function Authority(o: Origin): string {
    if ':' in o.host then "[" + o.host + "]:" + Dec(o.port) else o.host + ":" + Dec(o.port)
  }

  /** Wildcard binds are reachable on the IPv4 loopback; any other address is kept. */
  function LocalHost(a: SocketAddr): string {
    if Unspecified(a.ip) then "127.0.0.1" else ShowIp(a.ip)
  }

  function ParsePort(s: string): Option<Port> { ParseUnsigned(s, false, U16_MAX) }

  function SplitAuthority(s: string): Option<(string, Port)> {
    if s != [] && s[0] == '[' then
      match SplitOnce(s[1..], ']')
      case None => None
      case Some((host, rest)) =>
        if rest == [] || rest[0] != ':' then None
        else
          match ParsePort(rest[1..])
          case None => None
          case Some(port) => Some((host, port))
    else
      match RSplitOnce(s, ':')
      case None => None
      case Some((host, rest)) =>
        match ParsePort(rest)
        case None => None
        case Some(port) => Some((host, port))
  }

  predicate AliasOfLoopback(host: string) { host == "localhost" || host == "0.0.0.0" || host == "::" }

  function ParseAuthority(s: string): Option<Origin> {
    match SplitAuthority(Trim(s))
    case None => None
    case Some((host, port)) =>
      if port == 0 || host == [] then None
      else Some(Origin(if AliasOfLoopback(host) then "127.0.0.1" else host, port))
  }

  /** The origins whose text form reads back. */
  predicate Canonical(o: Origin) {
    && o.port != 0 && o.host != []
    && !AliasOfLoopback(o.host)
    && if ':' in o.host then ']' !in o.host else o.host[0] != '[' && !IsWhitespace(o.host[0])
  }

  lemma {:induction false} TrimBefore(s: string, t: string)
    requires t != [] && !IsWhitespace(t[0]) && !IsWhitespace(t[|t| - 1])
    ensures TrimStart(s + t) == TrimStart(s) + t && Trim(s + t) == TrimStart(s) + t
  {
    if s == [] {
      assert s + t == t;
    } else if IsWhitespace(s[0]) {
      TrimBefore(s[1..], t);
      assert (s + t)[1..] == s[1..] + t;
    }
  }

  lemma {:induction false} TrimStartShorter(s: string)
    ensures |TrimStart(s)| <= |s|
    ensures s != [] && IsWhitespace(s[0]) ==> |TrimStart(s)| < |s|
  {
    if s != [] && IsWhitespace(s[0]) {
      TrimStartShorter(s[1..]);
    }
  }

  lemma SplitBracketed(host: string, port: Port)
    requires ']' !in host
    ensures SplitAuthority("[" + host + "]:" + Dec(port)) == Some((host, port))
  {
    var s := "[" + host + "]:" + Dec(port);
    assert s[1..] == host + "]" + (":" + Dec(port));
    FindAt(host, ']', ":" + Dec(port));
    assert (":" + Dec(port))[1..] == Dec(port);
    ParseDec(port, U16_MAX);
  }

  lemma SplitPlain(host: string, port: Port)
    requires host == [] || host[0] != '['
    ensures SplitAuthority(host + ":" + Dec(port)) == Some((host, port))
  {
    RSplitAt(host, ':', Dec(port));
    ParseDec(port, U16_MAX);
  }

  /** A bracketed text yields a host that ends before the first closing bracket. */
  lemma BracketHostShort(s: string, n: nat)
    requires s != [] && s[0] == '[' && SplitAuthority(s).Some?
    requires forall i :: n <= i < |s| ==> s[i] != ']'
    ensures |SplitAuthority(s).value.0| + 1 < n
  {
  }

  lemma CanonicalParses(o: Origin)
    requires Canonical(o)
    ensures ParseAuthority(Authority(o)) == Some(o)
  {
    var a := Authority(o);
    assert Trimmed(a);
    TrimFixed(a);
    if ':' in o.host { SplitBracketed(o.host, o.port); } else { SplitPlain(o.host, o.port); }
  }

  /** A host with both a colon and a closing bracket is cut at the bracket. */
  lemma InnerBracket(host: string, port: Port)
    requires ':' in host && ']' in host
    ensures
      var r := SplitAuthority("[" + host + "]:" + Dec(port));
      r.Some? ==> |r.value.0| < |host|
  {
    var a, k := "[" + host + "]:" + Dec(port), Find(host, ']');
    var rest := host[k + 1..] + "]:" + Dec(port);
    assert a[1..] == host[..k] + "]" + rest;
    FindAt(host[..k], ']', rest);
  }

  lemma ParsedHost(s: string)
    requires ParseAuthority(s).Some?
    ensures SplitAuthority(Trim(s)).Some?
    ensures
      var (h, p) := SplitAuthority(Trim(s)).value;
      ParseAuthority(s) == Some(Origin(if AliasOfLoopback(h) then "127.0.0.1" else h, p)) && p != 0 && h != []
  {
  }

  lemma ColonHostDoesNot(o: Origin)
    requires !Canonical(o) && ':' in o.host
    ensures ParseAuthority(Authority(o)) != Some(o)
  {
    var a := Authority(o);
    assert Trim(a) == a by { assert Trimmed(a); TrimFixed(a); }
    if ParseAuthority(a).Some? {
      assert
        var h := SplitAuthority(a).value.0;
        h == o.host || |h| < |o.host|
      by {
        assert SplitAuthority(a).Some?;
        if ']' in o.host { InnerBracket(o.host, o.port); } else { SplitBracketed(o.host, o.port); }
      }
      ParsedHost(a);
    }
  }

  /** What a colon-free host parses to is at least as short as the host without leading blanks. */
  lemma PlainHostSplit(host: string, port: Port)
    requires ':' !in host && SplitAuthority(TrimStart(host) + ":" + Dec(port)).Some?
    ensures
      var h, r := TrimStart(host), SplitAuthority(TrimStart(host) + ":" + Dec(port)).value;
      if h != [] && h[0] == '[' then |r.0| < |h| else r == (h, port)
  {
    var h := TrimStart(host);
    if h != [] && h[0] == '[' {
      BracketHostShort(h + ":" + Dec(port), |h|);
    } else {
      SplitPlain(h, port);
    }
  }

  lemma PlainHostDoesNot(o: Origin)
    requires !Canonical(o) && ':' !in o.host
    ensures ParseAuthority(Authority(o)) != Some(o)
  {
    var a, h := Authority(o), TrimStart(o.host);
    assert Trim(a) == h + ":" + Dec(o.port) by {
      TrimBefore(o.host, ":" + Dec(o.port));
      assert a == o.host + (":" + Dec(o.port));
    }
    if ParseAuthority(a) == Some(o) {
      ParsedHost(a);
      PlainHostSplit(o.host, o.port);
      TrimStartShorter(o.host);
      NotLoopbackText(o.host);
    }
  }

  lemma NotLoopbackText(host: string)
    ensures host == "127.0.0.1" ==> TrimStart(host) == host && host[0] == '1' && !AliasOfLoopback(host)
  {
  }

  /** An origin's text form reads back to it exactly when the origin is canonical. */
  lemma AuthorityRoundTrip(o: Origin)
    ensures ParseAuthority(Authority(o)) == Some(o) <==> Canonical(o)
  {
    if Canonical(o) { CanonicalParses(o); } else if ':' in o.host { ColonHostDoesNot(o); } else { PlainHostDoesNot(o); }
  }

  lemma AuthorityInjective(o: Origin, p: Origin)
    requires Authority(o) == Authority(p)
    ensures o == p
  {
    var a := if ':' in o.host then "[" + o.host + "]" else o.host;
    var b := if ':' in p.host then "[" + p.host + "]" else p.host;
    assert Authority(o) == a + ":" + Dec(o.port) && Authority(p) == b + ":" + Dec(p.port);
    RSplitAt(a, ':', Dec(o.port));
    RSplitAt(b, ':', Dec(p.port));
    DecInjective(o.port, p.port);
    assert ':' in a <==> ':' in o.host by { if ':' in o.host { Inside(o.host); } }
    assert ':' in b <==> ':' in p.host by { if ':' in p.host { Inside(p.host); } }
    assert ':' in o.host ==> a[1..|a| - 1] == o.host && b[1..|b| - 1] == p.host;
  }

  lemma Inside(h: string)
    requires ':' in h
    ensures ':' in "[" + h + "]"
  {
  }

  // ---------------------------------------------------------------- what discovery emits

  lemma ShowV4Text(b: seq<Byte>)
    requires |b| == 4
    ensures var s := ShowV4(b); s != [] && IsDigit(s[0]) && forall i :: 0 <= i < |s| ==> IsDigit(s[i]) || s[i] == '.'
    ensures ShowV4(b) == "0.0.0.0" ==> forall i :: 0 <= i < 4 ==> b[i] == 0
  {
    if ShowV4(b) == "0.0.0.0" {
      var d0, d1, d2, d3 := Dec(b[0]), Dec(b[1]), Dec(b[2]), Dec(b[3]);
      var s := ShowV4(b);
      assert |s| == 7 && |d0| == 1 && |d1| == 1 && |d2| == 1 && |d3| == 1;
      assert s[0] == d0[0] && s[2] == d1[0] && s[4] == d2[0] && s[6] == d3[0];
      ZeroText(b[0]);
      ZeroText(b[1]);
      ZeroText(b[2]);
      ZeroText(b[3]);
    }
  }

  lemma ZeroText(n: nat)
    ensures |Dec(n)| == 1 && Dec(n)[0] == '0' ==> n == 0
  {
  }

  lemma SegmentsZero(b: seq<Byte>)
    requires |b| == 16 && forall k :: 0 <= k < 8 ==> Segments(b)[k] == 0
    ensures forall i :: 0 <= i < 16 ==> b[i] == 0
  {
    var s := Segments(b);
    assert s[0] == 0 && s[1] == 0 && s[2] == 0 && s[3] == 0 && s[4] == 0 && s[5] == 0 && s[6] == 0 && s[7] == 0;
  }

  lemma ShowCompressedText(s: seq<nat>)
    requires |s| > 1
    ensures ':' in ShowCompressed(s) && forall i :: 0 <= i < |ShowCompressed(s)| ==> AddressChar(ShowCompressed(s)[i])
    ensures ShowCompressed(s) == "::" ==> forall k :: 0 <= k < |s| ==> s[k] == 0
  {
  }

  lemma ShowV6Text(b: seq<Byte>)
    requires |b| == 16
    ensures ':' in ShowV6(b) && forall i :: 0 <= i < |ShowV6(b)| ==> AddressChar(ShowV6(b)[i])
    ensures ShowV6(b) == "::" ==> forall i :: 0 <= i < 16 ==> b[i] == 0
  {
    if V4Mapped(b) {
      ShowV4Text(b[12..]);
      assert ShowV6(b)[0] == ':';
    } else {
      ShowCompressedText(Segments(b));
      if ShowV6(b) == "::" { SegmentsZero(b); }
    }
  }

  /** Every origin discovery can report is canonical, so it can be hidden and read back. */
  lemma EmittedIsCanonical(a: SocketAddr)
    requires a.port != 0
    ensures Canonical(Origin(LocalHost(a), a.port))
    ensures ParseAuthority(Authority(Origin(LocalHost(a), a.port))) == Some(Origin(LocalHost(a), a.port))
  {
    var o := Origin(LocalHost(a), a.port);
    assert Canonical(o) by {
      if !Unspecified(a.ip) {
        if a.ip.V4? { V4Canonical(a.ip.bytes, a.port); } else { V6Canonical(a.ip.bytes, a.port); }
      }
    }
    CanonicalParses(o);
  }

  lemma V4Canonical(b: seq<Byte>, port: Port)
    requires |b| == 4 && port != 0 && exists i :: 0 <= i < 4 && b[i] != 0
    ensures Canonical(Origin(ShowV4(b), port))
  {
    ShowV4Text(b);
    var h := ShowV4(b);
    assert ':' !in h && h[0] != 'l' && h[0] != '[';
  }

  lemma V6Canonical(b: seq<Byte>, port: Port)
    requires |b| == 16 && port != 0 && exists i :: 0 <= i < 16 && b[i] != 0
    ensures Canonical(Origin(ShowV6(b), port))
  {
    ShowV6Text(b);
    var h := ShowV6(b);
    assert ':' in h && ']' !in h;
    assert ':' !in "localhost" && ':' !in "0.0.0.0";
  }

  // ---------------------------------------------------------------- hiding and unhiding

  predicate Designates(entry: string, key: string) {
    ParseAuthority(entry).Some? && Authority(ParseAuthority(entry).value) == key
  }

  function Unhidden(entries: seq<string>, key: string): seq<string> {
    if entries == [] then []
    else
      var rest := Unhidden(entries[..|entries| - 1], key);
      if Designates(entries[|entries| - 1], key) then rest else rest + [entries[|entries| - 1]]
  }

  /** Add the origin to the exclude list unless an entry already names it. */
  method Hide(entries: seq<string>, o: Origin) returns (already: bool, r: seq<string>)
    ensures already <==> exists e :: e in entries && Designates(e, Authority(o))
    ensures r == if already then entries else entries + [Authority(o)]
  {
    var key := Authority(o);
    already, r := false, entries;
    for i := 0 to |entries|
      invariant forall e :: e in entries[..i] ==> !Designates(e, key)
    {
      if Designates(entries[i], key) {
        assert entries[i] in entries;
        return true, entries;
      }
      assert entries[..i + 1] == entries[..i] + [entries[i]];
    }
    assert entries[..|entries|] == entries;
    r := r + [key];
  }

  /** Drop every entry that names the origin and keep the rest, unreadable entries included. */
  method Unhide(entries: seq<string>, o: Origin) returns (found: bool, r: seq<string>)
    ensures r == Unhidden(entries, Authority(o))
    ensures found <==> |r| != |entries|
  {
    var key := Authority(o);
    r := [];
    for i := 0 to |entries|
      invariant r == Unhidden(entries[..i], key)
    {
      assert entries[..i + 1][..i] == entries[..i];
      if !Designates(entries[i], key) {
        r := r + [entries[i]];
      }
    }
    assert entries[..|entries|] == entries;
    found := |r| != |entries|;
  }

  lemma {:induction false} UnhiddenFixed(entries: seq<string>, key: string)
    requires forall e :: e in entries ==> !Designates(e, key)
    ensures Unhidden(entries, key) == entries
  {
    if entries != [] {
      UnhiddenFixed(entries[..|entries| - 1], key);
      assert entries == entries[..|entries| - 1] + [entries[|entries| - 1]];
    }
  }

  /** Hiding an origin and unhiding it restores the list exactly, when and only when the origin is
      canonical; otherwise the added entry names something else and stays. */
  lemma HideThenUnhide(entries: seq<string>, o: Origin)
    requires forall e :: e in entries ==> !Designates(e, Authority(o))
    ensures Unhidden(entries + [Authority(o)], Authority(o)) == entries <==> Canonical(o)
  {
    var key := Authority(o);
    UnhiddenFixed(entries, key);
    assert (entries + [key])[..|entries|] == entries;
    AuthorityRoundTrip(o);
    if Designates(key, key) { AuthorityInjective(ParseAuthority(key).value, o); }
  }
}
