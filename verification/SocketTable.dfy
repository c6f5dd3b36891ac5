/** The kernel's socket table: rows of hexadecimal addresses in little-endian words. */
module SocketTable {
  import opened Text
  import opened Origins

  const STATE_LISTEN: string := "0A"

  // ---------------------------------------------------------------- parsing

  /** `u32::to_le_bytes`. */
  function LeBytes(w: nat): (b: seq<Byte>)
    requires w <= U32_MAX
    ensures |b| == 4
  {
    [w % 256, w / 256 % 256, w / 65536 % 256, w / 16777216]
  }

  function LeWord(b: seq<Byte>): (w: nat)
    requires |b| == 4
    ensures w <= U32_MAX
  {
    var at := (i: nat) => if i < |b| then b[i] as int else 0;
    at(0) + 256 * at(1) + 65536 * at(2) + 16777216 * at(3)
  }

  lemma LeRoundTrip(b: seq<Byte>)
    requires |b| == 4
    ensures LeBytes(LeWord(b)) == b
  {
    var b0: int, b1: int, b2: int, b3: int := b[0], b[1], b[2], b[3];
    LeDigits(b0, b1, b2, b3);
  }

  lemma LeDigits(b0: int, b1: int, b2: int, b3: int)
    requires 0 <= b0 < 256 && 0 <= b1 < 256 && 0 <= b2 < 256 && 0 <= b3 < 256
    ensures
      var w := b0 + 256 * b1 + 65536 * b2 + 16777216 * b3;
      w % 256 == b0 && w / 256 % 256 == b1 && w / 65536 % 256 == b2 && w / 16777216 == b3
  {
    var w := b0 + 256 * b1 + 65536 * b2 + 16777216 * b3;
    assert w == b0 + 256 * (b1 + 256 * b2 + 65536 * b3);
    assert w / 256 == b1 + 256 * (b2 + 256 * b3);
    assert w / 65536 == b2 + 256 * b3;
  }

  function Prepend(p: seq<Byte>, rest: Option<seq<Byte>>): Option<seq<Byte>> {
    match rest case Some(b) => Some(p + b) case None => None
  }

  lemma PrependTwice(p: seq<Byte>, q: seq<Byte>, rest: Option<seq<Byte>>)
    ensures Prepend(p, Prepend(q, rest)) == Prepend(p + q, rest)
    ensures Prepend([], rest) == rest
  {
    if rest.Some? {
      assert p + (q + rest.value) == p + q + rest.value;
      assert [] + rest.value == rest.value;
    }
  }

  /** The bytes of a text of 8-digit words, each word in little-endian order. */
  function WordBytes(hex: string): (r: Option<seq<Byte>>)
    requires |hex| % 8 == 0
    ensures r.Some? ==> |r.value| * 2 == |hex|
  {
    if hex == [] then Some([])
    else
      match ParseUnsigned(hex[..8], true, U32_MAX)
      case Some(w) => Prepend(LeBytes(w), WordBytes(hex[8..]))
      case None => None
  }

  function IpOf(hex: string, ipv6: bool): Option<IpAddr> {
    if |hex| != (if ipv6 then 32 else 8) then None
    else
      match WordBytes(hex)
      case Some(b) => Some(if ipv6 then V6(b) else V4(b))
      case None => None
  }

  lemma OneWord(hex: string)
    requires |hex| == 8
    ensures WordBytes(hex) == match ParseUnsigned(hex, true, U32_MAX) case Some(w) => Some(LeBytes(w)) case None => None
  {
    assert hex[..8] == hex && hex[8..] == [];
    assert WordBytes(hex[8..]) == Some([]);
    match ParseUnsigned(hex, true, U32_MAX) {
      case Some(w) => assert LeBytes(w) + [] == LeBytes(w);
      case None =>
    }
  }

  /** Fills a fixed buffer word by word. */
  method ParseIp(hex: string, ipv6: bool) returns (r: Option<IpAddr>)
    ensures r == IpOf(hex, ipv6)
  {
    if |hex| != (if ipv6 then 32 else 8) {
      return None;
    }
    if ipv6 {
      var bytes := FillWords(hex);
      r := match bytes case Some(b) => Some(V6(b)) case None => None;
    } else {
      OneWord(hex);
      var word := ParseUnsigned(hex, true, U32_MAX);
      r := match word case Some(w) => Some(V4(LeBytes(w))) case None => None;
    }
  }

  method CopyFromSlice(bytes: array<Byte>, at: nat, le: seq<Byte>)
    requires |le| == 4 && at + 4 <= bytes.Length
    modifies bytes
    ensures bytes[..at + 4] == old(bytes[..at]) + le
  {
    bytes[at], bytes[at + 1], bytes[at + 2], bytes[at + 3] := le[0], le[1], le[2], le[3];
  }

  method FillWords(hex: string) returns (r: Option<seq<Byte>>)
    requires |hex| == 32
    ensures r == WordBytes(hex)
  {
    var bytes := new Byte[16];
    var rest, at := hex, 0;
    assert bytes[..0] == [];
    PrependTwice([], [], WordBytes(hex));
    while rest != []
      invariant at <= 16 && |rest| == 32 - 2 * at && at % 4 == 0
      invariant WordBytes(hex) == Prepend(bytes[..at], WordBytes(rest))
      decreases |rest|
    {
      var word := ParseUnsigned(rest[..8], true, U32_MAX);
      if word.None? {
        return None;
      }
      PrependTwice(bytes[..at], LeBytes(word.value), WordBytes(rest[8..]));
      CopyFromSlice(bytes, at, LeBytes(word.value));
      rest, at := rest[8..], at + 4;
    }
    assert bytes[..16] + [] == bytes[..16] == bytes[..];
    r := Some(bytes[..]);
  }

  function RowAddress(line: string, ipv6: bool): Option<SocketAddr> {
    var f := Fields(line);
    if |f| <= 3 || f[3] != STATE_LISTEN then None
    else
      match SplitOnce(f[1], ':')
      case None => None
      case Some((addr, portHex)) =>
        match ParseUnsigned(portHex, true, U16_MAX)
        case None => None
        case Some(port) =>
          if port == 0 then None
          else
            match IpOf(addr, ipv6)
            case None => None
            case Some(ip) => Some(SocketAddr(ip, port))
  }

  function OneOrNone(a: Option<SocketAddr>): seq<SocketAddr> {
    match a case Some(v) => [v] case None => []
  }

  function RowParser(ipv6: bool): string -> Option<SocketAddr> {
    (line: string) => RowAddress(line, ipv6)
  }

  function RowAddresses(lines: seq<string>, parse: string -> Option<SocketAddr>): seq<SocketAddr> {
    if lines == [] then [] else OneOrNone(parse(lines[0])) + RowAddresses(lines[1..], parse)
  }

  function TableAddresses(table: string, ipv6: bool): seq<SocketAddr> {
    var lines := Lines(table);
    if lines == [] then [] else RowAddresses(lines[1..], RowParser(ipv6))
  }

  method ParseRow(line: string, ipv6: bool) returns (r: Option<SocketAddr>)
    ensures r == RowParser(ipv6)(line)
  {
    var fields := Fields(line);
    if |fields| <= 3 || fields[3] != STATE_LISTEN {
      return None;
    }
    var local := SplitOnce(fields[1], ':');
    if local.None? {
      return None;
    }
    var port := ParseUnsigned(local.value.1, true, U16_MAX);
    if port.None? || port.value == 0 {
      return None;
    }
    var ip := ParseIp(local.value.0, ipv6);
    r := match ip case Some(a) => Some(SocketAddr(a, port.value)) case None => None;
  }

  method ParseTable(table: string, ipv6: bool) returns (out: seq<SocketAddr>)
    ensures out == TableAddresses(table, ipv6)
  {
    out := [];
    var lines := Lines(table);
    if lines == [] {
      return;
    }
    ghost var parse := RowParser(ipv6);
    for i := 1 to |lines|
      invariant out + RowAddresses(lines[i..], parse) == RowAddresses(lines[1..], parse)
    {
      var row := ParseRow(lines[i], ipv6);
      RowsFrom(out, lines, i, parse);
      out := out + OneOrNone(row);
    }
  }

  lemma RowsFrom(out: seq<SocketAddr>, lines: seq<string>, i: nat, parse: string -> Option<SocketAddr>)
    requires i < |lines|
    ensures out + RowAddresses(lines[i..], parse)
         == out + OneOrNone(parse(lines[i])) + RowAddresses(lines[i + 1..], parse)
  {
  }

  // ---------------------------------------------------------------- the kernel's rendering

  /** A row of the table: slot number, local address, a remote column, the state, and the rest. */
  datatype Row = Row(pad: nat, slot: nat, local: SocketAddr, remote: string, state: Byte, tail: string)

  function Spaces(n: nat): string { if n == 0 then "" else " " + Spaces(n - 1) }

  /** A little-endian machine word prints its bytes from the last to the first. */
  function WordText(b: seq<Byte>): string
    requires |b| == 4
  {
    ToHex([b[3], b[2], b[1], b[0]], true)
  }

  function HexWords(b: seq<Byte>): string
    requires |b| % 4 == 0
  {
    if b == [] then "" else WordText(b[..4]) + HexWords(b[4..])
  }

  function PortText(port: Port): string { ToHex([port / 256, port % 256], true) }

  function LocalText(a: SocketAddr): string { HexWords(a.ip.bytes) + ":" + PortText(a.port) }

  function Columns(a: string, b: string, c: string, d: string, tail: string): string {
    a + " " + (b + " " + (c + " " + (d + tail)))
  }

  function Render(r: Row): string {
    Spaces(r.pad) + Columns(Dec(r.slot) + ":", LocalText(r.local), r.remote, ToHex([r.state], true), r.tail)
  }

  predicate NoBreaks(s: string) { '\n' !in s && '\r' !in s }

  predicate WellFormed(r: Row, ipv6: bool) {
    && r.local.ip.V6? == ipv6
    && Word(r.remote)
    && NoBreaks(r.tail) && (r.tail != [] ==> r.tail[0] == ' ')
  }

  function RenderRows(rows: seq<Row>): string {
    if rows == [] then "" else Render(rows[0]) + "\n" + RenderRows(rows[1..])
  }

  predicate Listening(r: Row) { r.state == 0x0A && r.local.port != 0 }

  /** The listening rows with a port, in order, as the addresses they were rendered from. */
  function ListeningAddresses(rows: seq<Row>): seq<SocketAddr> {
    if rows == [] then []
    else (if Listening(rows[0]) then [rows[0].local] else []) + ListeningAddresses(rows[1..])
  }

  lemma WordParses(b: seq<Byte>)
    requires |b| == 4
    ensures ParseUnsigned(WordText(b), true, U32_MAX) == Some(LeWord(b))
  {
    var be := [b[3], b[2], b[1], b[0]];
    ParseHex(be, true, U32_MAX);
    assert be[..3] == [b[3], b[2], b[1]] && be[..3][..2] == [b[3], b[2]] && be[..3][..2][..1] == [b[3]];
    assert BigEndian([b[3]]) == b[3];
    assert BigEndian([b[3], b[2]]) == b[3] as int * 256 + b[2];
  }

  lemma PortParses(port: Port)
    ensures ParseUnsigned(PortText(port), true, U16_MAX) == Some(port)
  {
    var be: seq<Byte> := [port / 256, port % 256];
    ParseHex(be, true, U16_MAX);
    assert be[..1] == [be[0]];
    assert BigEndian([be[0]]) == be[0];
  }

  lemma {:induction false} HexWordsText(b: seq<Byte>)
    requires |b| % 4 == 0
    ensures |HexWords(b)| == 2 * |b| && |HexWords(b)| % 8 == 0
    ensures forall i :: 0 <= i < |HexWords(b)| ==> DigitValue(HexWords(b)[i]).Some?
  {
    if b != [] {
      HexWordsText(b[4..]);
      assert HexWords(b) == WordText(b[..4]) + HexWords(b[4..]);
    }
  }

  lemma {:induction false} WordsRoundTrip(b: seq<Byte>)
    requires |b| % 4 == 0
    ensures |HexWords(b)| % 8 == 0 && WordBytes(HexWords(b)) == Some(b)
  {
    HexWordsText(b);
    if b != [] {
      var word, rest := WordText(b[..4]), HexWords(b[4..]);
      HexWordsText(b[4..]);
      WordsRoundTrip(b[4..]);
      WordParses(b[..4]);
      LeRoundTrip(b[..4]);
      assert HexWords(b)[..8] == word && HexWords(b)[8..] == rest;
      assert b == b[..4] + b[4..];
    }
  }

  lemma StateText(state: Byte)
    ensures ToHex([state], true) == STATE_LISTEN <==> state == 0x0A
  {
    FromToHex([state], true);
    FromToHex([0x0A], true);
    assert ToHex([0x0A], true) == ToHex([], true) + ['0', 'A'] by { assert [0x0A as Byte][..0] == []; }
  }

  lemma LocalParses(a: SocketAddr)
    ensures Word(LocalText(a)) && NoBreaks(LocalText(a))
    ensures SplitOnce(LocalText(a), ':') == Some((HexWords(a.ip.bytes), PortText(a.port)))
    ensures IpOf(HexWords(a.ip.bytes), a.ip.V6?) == Some(a.ip)
  {
    WordsRoundTrip(a.ip.bytes);
    HexWordsText(a.ip.bytes);
    HexPlain(HexWords(a.ip.bytes), PortText(a.port));
  }

  lemma HexPlain(a: string, b: string)
    requires forall i :: 0 <= i < |a| ==> DigitValue(a[i]).Some?
    requires forall i :: 0 <= i < |b| ==> DigitValue(b[i]).Some?
    ensures Word(a + ":" + b) && NoBreaks(a + ":" + b)
    ensures SplitOnce(a + ":" + b, ':') == Some((a, b))
  {
    assert ':' !in a;
    FindAt(a, ':', b);
  }

  lemma {:induction false} FieldsSkip(n: nat, rest: string)
    ensures Fields(Spaces(n) + rest) == Fields(rest)
  {
    if n == 0 {
      assert Spaces(0) + rest == rest;
    } else {
      FieldsSkip(n - 1, rest);
      assert (Spaces(n) + rest)[1..] == Spaces(n - 1) + rest;
    }
  }

  lemma FieldThen(w: string, rest: string)
    requires Word(w)
    ensures Fields(w + " " + rest) == [w] + Fields(rest)
  {
    FieldsFirst(w, " " + rest);
    assert w + " " + rest == w + (" " + rest);
    FieldsSkip(1, rest);
    assert Spaces(1) + rest == " " + rest;
  }

  lemma Paired(a: string, b: string, after: seq<string>)
    ensures [a] + ([b] + after) == [a, b] + after
  {
  }

  lemma FirstTwo(a: string, b: string, rest: string)
    requires Word(a) && Word(b)
    ensures Fields(a + " " + (b + " " + rest)) == [a, b] + Fields(rest)
  {
    FieldThen(b, rest);
    FieldThen(a, b + " " + rest);
    Paired(a, b, Fields(rest));
  }

  lemma LastTwo(c: string, d: string, tail: string)
    requires Word(c) && Word(d) && (tail != [] ==> tail[0] == ' ')
    ensures Fields(c + " " + (d + tail)) == [c, d] + Fields(tail)
  {
    assert Fields(d + tail) == [d] + Fields(tail) by { FieldsFirst(d, tail); }
    FieldThen(c, d + tail);
    Paired(c, d, Fields(tail));
  }

  lemma Joined(f: seq<string>, g: seq<string>, a: string, b: string, c: string, d: string, after: seq<string>)
    requires g == [c, d] + after && f == [a, b] + g
    ensures f == [a, b, c, d] + after
  {
  }

  lemma FourFields(pad: nat, a: string, b: string, c: string, d: string, tail: string)
    requires Word(a) && Word(b) && Word(c) && Word(d) && (tail != [] ==> tail[0] == ' ')
    ensures Fields(Spaces(pad) + Columns(a, b, c, d, tail)) == [a, b, c, d] + Fields(tail)
  {
    var rest := c + " " + (d + tail);
    FieldsSkip(pad, Columns(a, b, c, d, tail));
    FirstTwo(a, b, rest);
    LastTwo(c, d, tail);
    Joined(Fields(Columns(a, b, c, d, tail)), Fields(rest), a, b, c, d, Fields(tail));
  }

  lemma RowFields(r: Row, ipv6: bool)
    requires WellFormed(r, ipv6)
    ensures
      var f := Fields(Render(r));
      |f| > 3 && f[1] == LocalText(r.local) && f[3] == ToHex([r.state], true)
  {
    var slot, local, st := Dec(r.slot) + ":", LocalText(r.local), ToHex([r.state], true);
    assert Word(local) by { LocalParses(r.local); }
    FourFields(r.pad, slot, local, r.remote, st, r.tail);
  }

  lemma RowParses(r: Row, ipv6: bool)
    requires WellFormed(r, ipv6)
    ensures RowAddress(Render(r), ipv6) == if Listening(r) then Some(r.local) else None
  {
    RowFields(r, ipv6);
    LocalParses(r.local);
    PortParses(r.local.port);
    StateText(r.state);
  }

  lemma {:induction false} SpacesPlain(n: nat)
    ensures NoBreaks(Spaces(n))
  {
    if n > 0 { SpacesPlain(n - 1); }
  }

  lemma RowPlain(r: Row, ipv6: bool)
    requires WellFormed(r, ipv6)
    ensures NoBreaks(Render(r))
  {
    SpacesPlain(r.pad);
    LocalParses(r.local);
    assert NoBreaks(r.remote) && NoBreaks(Dec(r.slot) + ":") && NoBreaks(ToHex([r.state], true));
  }

  lemma {:induction false} RowsParse(rows: seq<Row>, ipv6: bool)
    requires forall r :: r in rows ==> WellFormed(r, ipv6)
    ensures RowAddresses(Lines(RenderRows(rows)), RowParser(ipv6)) == ListeningAddresses(rows)
  {
    if rows != [] {
      assert rows[0] in rows;
      RowsParse(rows[1..], ipv6);
      RowPlain(rows[0], ipv6);
      LinesFirst(Render(rows[0]), RenderRows(rows[1..]));
      RowParses(rows[0], ipv6);
      assert ([Render(rows[0])] + Lines(RenderRows(rows[1..])))[1..] == Lines(RenderRows(rows[1..]));
    }
  }

  /** Parsing a table the kernel rendered gives back exactly the listening rows with a port, in
      order, with their original address bytes and ports. */
  lemma TableRoundTrip(header: string, rows: seq<Row>, ipv6: bool)
    requires NoBreaks(header) && forall r :: r in rows ==> WellFormed(r, ipv6)
    ensures TableAddresses(header + "\n" + RenderRows(rows), ipv6) == ListeningAddresses(rows)
  {
    LinesFirst(header, RenderRows(rows));
    RowsParse(rows, ipv6);
    assert ([header] + Lines(RenderRows(rows)))[1..] == Lines(RenderRows(rows));
  }
}
