/** Strings as the Rust standard library treats them: trimming, splitting, numbers and UTF-8.
    A `char` is a Unicode scalar value. */
module Text {

  datatype Option<+T> = None | Some(value: T)

  // ---------------------------------------------------------------- characters

  /** `char::is_whitespace`: the Unicode White_Space property. */
  predicate IsWhitespace(c: char) {
    var n := c as int;
    || 0x09 <= n <= 0x0D || n == 0x20 || n == 0x85 || n == 0xA0 || n == 0x1680
    || 0x2000 <= n <= 0x200A || n == 0x2028 || n == 0x2029 || n == 0x202F || n == 0x205F || n == 0x3000
  }

  /** `char::is_control`: the Unicode category Cc. */
  predicate IsControl(c: char) {
    var n := c as int;
    n < 0x20 || 0x7F <= n < 0xA0
  }

  predicate IsDigit(c: char) { '0' <= c <= '9' }
  predicate IsLower(c: char) { 'a' <= c <= 'z' }
  predicate IsUpper(c: char) { 'A' <= c <= 'Z' }

  function ToLower(c: char): char {
    if IsUpper(c) then (c as int + 32) as char else c
  }

  function Lowercase(s: string): (r: string)
    ensures |r| == |s|
    ensures forall i :: 0 <= i < |s| ==> r[i] == ToLower(s[i])
  {
    seq(|s|, i requires 0 <= i < |s| => ToLower(s[i]))
  }

  /** The order of strings: the first differing character decides, and a prefix comes first. */
  predicate TextLeq(a: string, b: string) {
    a == [] || (b != [] && (a[0] < b[0] || (a[0] == b[0] && TextLeq(a[1..], b[1..]))))
  }

  lemma {:induction false} TextTotal(a: string, b: string)
    ensures TextLeq(a, b) || TextLeq(b, a)
    ensures TextLeq(a, b) && TextLeq(b, a) ==> a == b
  {
    if a != [] && b != [] && a[0] == b[0] {
      TextTotal(a[1..], b[1..]);
      assert a == [a[0]] + a[1..] && b == [b[0]] + b[1..];
    }
  }

  lemma {:induction false} TextTransitive(a: string, b: string, c: string)
    requires TextLeq(a, b) && TextLeq(b, c)
    ensures TextLeq(a, c)
  {
    if a != [] && a[0] == b[0] && b[0] == c[0] {
      TextTransitive(a[1..], b[1..], c[1..]);
    }
  }

  lemma TextOrder()
    ensures forall a, b :: TextLeq(a, b) || TextLeq(b, a)
    ensures forall a, b, c :: TextLeq(a, b) && TextLeq(b, c) ==> TextLeq(a, c)
  {
    forall a, b ensures TextLeq(a, b) || TextLeq(b, a) { TextTotal(a, b); }
    forall a, b, c | TextLeq(a, b) && TextLeq(b, c) ensures TextLeq(a, c) { TextTransitive(a, b, c); }
  }

  // ---------------------------------------------------------------- trimming

  function TrimStart(s: string): (r: string)
    ensures r != [] ==> !IsWhitespace(r[0])
  {
    if s != [] && IsWhitespace(s[0]) then TrimStart(s[1..]) else s
  }

  function TrimEnd(s: string): (r: string)
    ensures r <= s
    ensures r != [] ==> !IsWhitespace(r[|r| - 1])
  {
    if s != [] && IsWhitespace(s[|s| - 1]) then TrimEnd(s[..|s| - 1]) else s
  }

  function Trim(s: string): string { TrimEnd(TrimStart(s)) }

  predicate Trimmed(s: string) {
    s != [] ==> !IsWhitespace(s[0]) && !IsWhitespace(s[|s| - 1])
  }

  /** `trim` yields a trimmed text and leaves exactly the trimmed texts alone. */
  lemma TrimFixed(s: string)
    ensures Trimmed(Trim(s))
    ensures Trim(s) == s <==> Trimmed(s)
  {
  }

  /** A trailing line break sent after a text does not survive `trim`. */
  lemma TrimDropsNewline(s: string)
    ensures Trim(s + "\n") == Trim(s)
  {
    if s == [] {
      assert TrimStart("\n") == TrimStart("") == "";
    } else if IsWhitespace(s[0]) {
      TrimDropsNewline(s[1..]);
      assert (s + "\n")[1..] == s[1..] + "\n";
    } else {
      assert TrimStart(s + "\n") == s + "\n";
      assert (s + "\n")[..|s|] == s;
    }
  }

  // ---------------------------------------------------------------- searching and splitting

  /** Position of the first `c`, or the length when there is none. */
  function Find(s: string, c: char): (k: nat)
    ensures k <= |s|
    ensures c !in s[..k]
    ensures k < |s| ==> s[k] == c
    ensures k < |s| <==> c in s
  {
    if s == [] then 0
    else if s[0] == c then 0
    else
      var k := Find(s[1..], c) + 1;
      assert s[..k] == [s[0]] + s[1..][..k - 1];
      k
  }

  /** `split_once`. */
  function SplitOnce(s: string, c: char): Option<(string, string)> {
    var k := Find(s, c);
    if k < |s| then Some((s[..k], s[k + 1..])) else None
  }

  lemma FindAt(a: string, c: char, b: string)
    requires c !in a
    ensures Find(a + [c] + b, c) == |a|
    ensures SplitOnce(a + [c] + b, c) == Some((a, b))
  {
    var s := a + [c] + b;
    var k := Find(s, c);
    assert s[|a|] == c;
    assert forall i :: 0 <= i < |a| ==> s[i] == a[i] && a[i] in a;
    assert forall i :: 0 <= i < k ==> s[i] in s[..k];
    assert s[..k] == a && s[k + 1..] == b;
  }

  /** `rsplit_once`: splits at the last `c`. */
  function RSplitOnce(s: string, c: char): (r: Option<(string, string)>)
    ensures r.Some? ==> s == r.value.0 + [c] + r.value.1 && c !in r.value.1
    ensures r.None? ==> c !in s
  {
    if s == [] then None
    else if s[|s| - 1] == c then Some((s[..|s| - 1], []))
    else
      match RSplitOnce(s[..|s| - 1], c)
      case None => assert s == s[..|s| - 1] + [s[|s| - 1]]; None
      case Some((a, b)) => assert s == s[..|s| - 1] + [s[|s| - 1]]; Some((a, b + [s[|s| - 1]]))
  }

  lemma {:induction false} RSplitAt(a: string, c: char, b: string)
    requires c !in b
    ensures RSplitOnce(a + [c] + b, c) == Some((a, b))
  {
    var s := a + [c] + b;
    if b == [] {
      assert s[..|s| - 1] == a;
    } else {
      var b' := b[..|b| - 1];
      RSplitAt(a, c, b');
      assert s[..|s| - 1] == a + [c] + b';
      assert s[|s| - 1] == b[|b| - 1] && b[|b| - 1] in b;
      assert b == b' + [b[|b| - 1]];
    }
  }

  /** `split`: the pieces between the separators, always at least one. */
  function Split(s: string, c: char): (r: seq<string>)
    ensures |r| > 0
    ensures forall p :: p in r ==> c !in p
    decreases |s|
  {
    var k := Find(s, c);
    if k < |s| then [s[..k]] + Split(s[k + 1..], c) else assert s[..k] == s; [s]
  }

  /** `str::lines`: a line ends with a line feed, and one carriage return before it is dropped. */
  function Lines(s: string): seq<string>
    decreases |s|
  {
    if s == [] then []
    else
      var k := Find(s, '\n');
      if k < |s| then [StripCr(s[..k])] + Lines(s[k + 1..]) else [s]
  }

  function StripCr(s: string): string {
    if s != [] && s[|s| - 1] == '\r' then s[..|s| - 1] else s
  }

  /** A line without breaks is read back exactly, before whatever follows it. */
  lemma LinesFirst(line: string, rest: string)
    requires '\n' !in line && '\r' !in line
    ensures Lines(line + "\n" + rest) == [line] + Lines(rest)
  {
    FindAt(line, '\n', rest);
    var s := line + "\n" + rest;
    assert s[..|line|] == line && s[|line| + 1..] == rest;
  }

  /** Length of the leading run of non-whitespace characters. */
  function WordLength(s: string): (k: nat)
    ensures k <= |s|
    ensures forall i :: 0 <= i < k ==> !IsWhitespace(s[i])
    ensures k < |s| ==> IsWhitespace(s[k])
  {
    if s == [] || IsWhitespace(s[0]) then 0 else 1 + WordLength(s[1..])
  }

  /** `split_whitespace`. */
  function Fields(s: string): seq<string>
    decreases |s|
  {
    if s == [] then []
    else if IsWhitespace(s[0]) then Fields(s[1..])
    else
      var k := WordLength(s);
      [s[..k]] + Fields(s[k..])
  }

  predicate Word(w: string) {
    w != [] && forall i :: 0 <= i < |w| ==> !IsWhitespace(w[i])
  }

  lemma FieldsFirst(w: string, rest: string)
    requires Word(w) && (rest == [] || IsWhitespace(rest[0]))
    ensures Fields(w + rest) == [w] + Fields(rest)
  {
    var s := w + rest;
    var k := WordLength(s);
    assert forall i :: 0 <= i < |w| ==> s[i] == w[i];
    assert rest != [] ==> s[|w|] == rest[0];
    assert s[..k] == w && s[k..] == rest;
  }

  function Join(parts: seq<string>, sep: string): string {
    if parts == [] then ""
    else if |parts| == 1 then parts[0]
    else parts[0] + sep + Join(parts[1..], sep)
  }

  // ---------------------------------------------------------------- numbers

  type Byte = n: nat | n < 256

  function DigitChar(d: nat, upper: bool): (c: char)
    requires d < 16
    ensures DigitValue(c) == Some(d)
    ensures IsDigit(c) || (!upper && 'a' <= c <= 'f') || (upper && 'A' <= c <= 'F')
    ensures d < 10 ==> IsDigit(c)
  {
    if d < 10 then (48 + d) as char else if upper then (55 + d) as char else (87 + d) as char
  }

  function DigitValue(c: char): Option<nat> {
    if IsDigit(c) then Some(c as int - 48)
    else if 'a' <= c <= 'f' then Some(c as int - 87)
    else if 'A' <= c <= 'F' then Some(c as int - 55)
    else None
  }

  /** The value of a run of decimal or hexadecimal digits, or nothing when one of them is no digit. */
  function DigitsValue(s: string, hex: bool): Option<nat> {
    if s == [] then Some(0)
    else
      match (DigitsValue(s[..|s| - 1], hex), DigitValue(s[|s| - 1]))
      case (Some(v), Some(d)) => if hex then Some(v * 16 + d) else if d < 10 then Some(v * 10 + d) else None
      case _ => None
  }

  /** `from_str_radix` for an unsigned type: an optional plus sign, then at least one digit. */
  function ParseUnsigned(s: string, hex: bool, max: nat): (r: Option<nat>)
    ensures r.Some? ==> r.value <= max
  {
    var body := if s != [] && s[0] == '+' then s[1..] else s;
    if body == [] then None
    else
      match DigitsValue(body, hex)
      case Some(v) => if v <= max then Some(v) else None
      case None => None
  }

  const U16_MAX: nat := 0xFFFF
  const U32_MAX: nat := 0xFFFF_FFFF

  /** Decimal printing. */
  function Dec(n: nat): (s: string)
    ensures s != [] && forall i :: 0 <= i < |s| ==> IsDigit(s[i])
  {
    if n < 10 then [DigitChar(n, false)] else Dec(n / 10) + [DigitChar(n % 10, false)]
  }

  lemma {:induction false} DecValue(n: nat)
    ensures DigitsValue(Dec(n), false) == Some(n)
  {
    if n < 10 {
      assert Dec(n)[..0] == [];
    } else {
      DecValue(n / 10);
      assert Dec(n)[..|Dec(n)| - 1] == Dec(n / 10);
    }
  }

  lemma DecInjective(a: nat, b: nat)
    requires Dec(a) == Dec(b)
    ensures a == b
  {
    DecValue(a);
    DecValue(b);
  }

  lemma ParseDec(n: nat, max: nat)
    ensures ParseUnsigned(Dec(n), false, max) == if n <= max then Some(n) else None
  {
    DecValue(n);
    assert IsDigit(Dec(n)[0]);
  }

  /** Bytes as pairs of hexadecimal digits. */
  function ToHex(bytes: seq<Byte>, upper: bool): (s: string)
    ensures |s| == 2 * |bytes|
    ensures forall i :: 0 <= i < |s| ==> DigitValue(s[i]).Some? && (!upper ==> IsDigit(s[i]) || IsLower(s[i]))
  {
    if bytes == [] then []
    else
      var b := bytes[|bytes| - 1];
      ToHex(bytes[..|bytes| - 1], upper) + [DigitChar(b / 16, upper), DigitChar(b % 16, upper)]
  }

  function FromHex(s: string): Option<seq<Byte>> {
    if s == [] then Some([])
    else if |s| == 1 then None
    else
      match (FromHex(s[..|s| - 2]), DigitValue(s[|s| - 2]), DigitValue(s[|s| - 1]))
      case (Some(init), Some(hi), Some(lo)) => if hi < 16 && lo < 16 then Some(init + [hi * 16 + lo]) else None
      case _ => None
  }

  lemma FromHexAppend(s: string, hi: nat, lo: nat, upper: bool)
    requires FromHex(s).Some? && hi < 16 && lo < 16
    ensures FromHex(s + [DigitChar(hi, upper), DigitChar(lo, upper)]) == Some(FromHex(s).value + [hi * 16 + lo])
  {
    var t := s + [DigitChar(hi, upper), DigitChar(lo, upper)];
    assert t[..|t| - 2] == s;
  }

  lemma {:induction false} FromToHex(bytes: seq<Byte>, upper: bool)
    ensures FromHex(ToHex(bytes, upper)) == Some(bytes)
  {
    if bytes != [] {
      var init, b := bytes[..|bytes| - 1], bytes[|bytes| - 1];
      var h, hi, lo := ToHex(init, upper), b / 16, b % 16;
      assert ToHex(bytes, upper) == h + [DigitChar(hi, upper), DigitChar(lo, upper)];
      assert FromHex(h) == Some(init) by { FromToHex(init, upper); }
      assert FromHex(ToHex(bytes, upper)) == Some(init + [hi * 16 + lo]) by { FromHexAppend(h, hi, lo, upper); }
      assert bytes == init + [b];
    }
  }

  /** The number whose big-endian bytes these are. */
  function BigEndian(bytes: seq<Byte>): nat {
    if bytes == [] then 0 else BigEndian(bytes[..|bytes| - 1]) * 256 + bytes[|bytes| - 1]
  }

  lemma {:induction false} HexNumber(bytes: seq<Byte>, upper: bool)
    ensures DigitsValue(ToHex(bytes, upper), true) == Some(BigEndian(bytes))
  {
    if bytes != [] {
      var init, s := bytes[..|bytes| - 1], ToHex(bytes, upper);
      HexNumber(init, upper);
      assert s[..|s| - 1][..|s| - 2] == ToHex(init, upper);
    }
  }

  lemma ParseHex(bytes: seq<Byte>, upper: bool, max: nat)
    requires bytes != []
    ensures ParseUnsigned(ToHex(bytes, upper), true, max) ==
            if BigEndian(bytes) <= max then Some(BigEndian(bytes)) else None
  {
    HexNumber(bytes, upper);
    assert DigitValue(ToHex(bytes, upper)[0]).Some?;
  }

  // ---------------------------------------------------------------- UTF-8

  /** The UTF-8 form of one character, section 3 of RFC 3629. */
  function Utf8Char(c: char): (b: seq<Byte>)
    ensures 1 <= |b| <= 4
    ensures |b| == LeadLength(b[0])
  {
    var n := c as int;
    if n < 0x80 then [n]
    else if n < 0x800 then [0xC0 + n / 64, 0x80 + n % 64]
    else if n < 0x1_0000 then [0xE0 + n / 4096, 0x80 + n / 64 % 64, 0x80 + n % 64]
    else [0xF0 + n / 262144, 0x80 + n / 4096 % 64, 0x80 + n / 64 % 64, 0x80 + n % 64]
  }

  /** `as_bytes`. */
  function Utf8(s: string): (b: seq<Byte>)
    ensures |b| >= |s|
  {
    if s == [] then [] else Utf8Char(s[0]) + Utf8(s[1..])
  }

  /** How many bytes a character takes, read off its first byte. */
  function LeadLength(n: int): nat {
    if n < 0x80 then 1 else if n < 0xE0 then 2 else if n < 0xF0 then 3 else 4
  }

  /** The code point a well-formed byte group stands for. */
  function CodePoint(b: seq<Byte>): int
    requires 1 <= |b| <= 4
  {
    var at := (i: nat) => if i < |b| then b[i] as int else 0;
    if |b| == 1 then at(0)
    else if |b| == 2 then at(0) * 64 + at(1) - 0x3080
    else if |b| == 3 then at(0) * 4096 + at(1) * 64 + at(2) - 0xE2080
    else at(0) * 262144 + at(1) * 4096 + at(2) * 64 + at(3) - 0x3C82080
  }

  lemma DivMod64(n: int)
    ensures n == n / 64 * 64 + n % 64
    ensures n / 4096 == n / 64 / 64 && n / 262144 == n / 4096 / 64
  {
  }

  lemma Utf8CharDecodes(c: char)
    ensures CodePoint(Utf8Char(c)) == c as int
  {
    var n := c as int;
    DivMod64(n);
    DivMod64(n / 64);
    DivMod64(n / 4096);
  }

  /** Equal bytes mean equal texts. */
  lemma {:induction false} Utf8Injective(s: string, t: string)
    requires Utf8(s) == Utf8(t)
    ensures s == t
  {
    if s != [] && t != [] {
      var a, b := Utf8Char(s[0]), Utf8Char(t[0]);
      assert Utf8(s)[0] == a[0] && Utf8(t)[0] == b[0];
      assert a == Utf8(s)[..|a|] && b == Utf8(t)[..|b|];
      Utf8CharDecodes(s[0]);
      Utf8CharDecodes(t[0]);
      assert Utf8(s[1..]) == Utf8(s)[|a|..] && Utf8(t[1..]) == Utf8(t)[|b|..];
      Utf8Injective(s[1..], t[1..]);
      assert s == [s[0]] + s[1..] && t == [t[0]] + t[1..];
    }
  }
}
