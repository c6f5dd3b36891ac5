/** Normalised display names and slugs.

    Three one-pass loops of the source share one closed form here: `Squeeze` keeps the visible
    characters in order and puts a single separator where a gap lay between two of them; the
    loops cut that form at their length limit. */
module Names {
  import opened Text

  datatype Class = Keep(c: char) | Gap | Drop

  /** A classifier and a separator that fit: the separator is itself a gap, and a kept character
      is kept as it is when it is read again. */
  ghost predicate Regular(cls: char -> Class, sep: char) {
    && cls(sep) == Gap
    && forall c: char :: cls(c).Keep? ==> cls(cls(c).c) == cls(c)
  }

  function Squeeze(s: string, cls: char -> Class, sep: char): string {
    if s == [] then []
    else
      var p, r := s[..|s| - 1], Squeeze(s[..|s| - 1], cls, sep);
      match cls(s[|s| - 1])
      case Keep(c) => if r != [] && GapPending(p, cls) then r + [sep, c] else r + [c]
      case _ => r
  }

  /** Whether a gap has been read since the last kept character. */
  predicate GapPending(s: string, cls: char -> Class) {
    s != [] &&
    match cls(s[|s| - 1])
    case Keep(_) => false
    case Gap => true
    case Drop => GapPending(s[..|s| - 1], cls)
  }

  /** The kept characters alone, in order. */
  function Kept(s: string, cls: char -> Class): string {
    if s == [] then []
    else
      match cls(s[|s| - 1])
      case Keep(c) => Kept(s[..|s| - 1], cls) + [c]
      case _ => Kept(s[..|s| - 1], cls)
  }

  /** Kept characters joined by single separators, none in front. */
  ghost predicate Loose(r: string, cls: char -> Class, sep: char) {
    && (forall i :: 0 <= i < |r| ==> r[i] == sep || cls(r[i]) == Keep(r[i]))
    && (r != [] ==> r[0] != sep)
    && (forall i :: 0 < i < |r| && r[i] == sep ==> r[i - 1] != sep)
  }

  /** The canonical form: `Loose`, and no separator at the end either. */
  ghost predicate Canonical(r: string, cls: char -> Class, sep: char) {
    Loose(r, cls, sep) && (r != [] ==> r[|r| - 1] != sep)
  }

  lemma {:induction false} SqueezeCanonical(s: string, cls: char -> Class, sep: char)
    requires Regular(cls, sep)
    ensures Canonical(Squeeze(s, cls, sep), cls, sep)
  {
    if s != [] {
      SqueezeCanonical(s[..|s| - 1], cls, sep);
      assert forall c: char :: cls(c).Keep? ==> cls(c).c != sep;
    }
  }

  /** A loose text squeezes to itself, less a separator at its end. */
  lemma {:induction false} SqueezeLoose(r: string, cls: char -> Class, sep: char)
    requires Regular(cls, sep) && Loose(r, cls, sep)
    ensures GapPending(r, cls) <==> r != [] && r[|r| - 1] == sep
    ensures Squeeze(r, cls, sep) == if r != [] && r[|r| - 1] == sep then r[..|r| - 1] else r
  {
    if r != [] {
      SqueezeLoose(r[..|r| - 1], cls, sep);
      assert r == r[..|r| - 1] + [r[|r| - 1]];
      if r[|r| - 1] != sep && |r| > 1 && r[|r| - 2] == sep {
        assert r == r[..|r| - 2] + [sep, r[|r| - 1]];
      }
    }
  }

  /** Reading on only extends the result, and a pending gap shows as a separator next. */
  lemma {:induction false} SqueezeExtends(s: string, i: nat, cls: char -> Class, sep: char)
    requires i <= |s|
    ensures
      var p, r := Squeeze(s[..i], cls, sep), Squeeze(s, cls, sep);
      && p <= r
      && (p != [] && GapPending(s[..i], cls) ==>
            if |r| > |p| then r[|p|] == sep
            else forall j :: i <= j <= |s| ==> GapPending(s[..j], cls) && Squeeze(s[..j], cls, sep) == p)
  {
    if i == |s| {
      assert s[..i] == s;
    } else {
      var t := s[..|s| - 1];
      SqueezeExtends(t, i, cls, sep);
      assert t[..i] == s[..i];
      assert forall j :: 0 <= j < |s| ==> t[..j] == s[..j];
      assert s[..|s|] == s && t[..|t|] == t;
    }
  }

  /** No kept character is lost, added or moved. */
  lemma {:induction false} SqueezeKeeps(s: string, cls: char -> Class, sep: char)
    requires Regular(cls, sep)
    ensures Kept(Squeeze(s, cls, sep), cls) == Kept(s, cls)
  {
    if s != [] {
      var p := s[..|s| - 1];
      SqueezeKeeps(p, cls, sep);
      var r, q := Squeeze(p, cls, sep), Squeeze(s, cls, sep);
      match cls(s[|s| - 1])
      case Keep(c) =>
        assert q[..|q| - 1] == r || (q[..|q| - 1] == r + [sep] && (r + [sep])[..|r|] == r);
        assert cls(c) == Keep(c);
      case _ =>
    }
  }

  lemma {:induction false} KeptPrefix(s: string, n: nat, cls: char -> Class)
    requires n <= |s|
    ensures Kept(s[..n], cls) <= Kept(s, cls)
  {
    if n == |s| {
      assert s[..n] == s;
    } else {
      KeptPrefix(s[..|s| - 1], n, cls);
      assert s[..|s| - 1][..n] == s[..n];
    }
  }

  // ---------------------------------------------------------------- device names and page titles

  const MAX_DEVICE_NAME: nat := 64
  const MAX_NAME_CHARS: nat := 120

  function DeviceClass(c: char): Class {
    if IsWhitespace(c) then Gap else if IsControl(c) then Drop else Keep(c)
  }

  function TitleClass(c: char): Class {
    if IsWhitespace(c) then Gap else Keep(c)
  }

  function Take(s: string, n: nat): string { if |s| <= n then s else s[..n] }

  function Tidy(s: string, max: nat): Option<string> {
    var r := Trim(Take(s, max));
    if r == [] then None else Some(r)
  }

  function SanitizedDeviceName(s: string): Option<string> {
    Tidy(Squeeze(s, DeviceClass, ' '), MAX_DEVICE_NAME)
  }

  function NormalizedName(s: string): Option<string> {
    Tidy(Squeeze(s, TitleClass, ' '), MAX_NAME_CHARS)
  }

  /** A classifier whose gaps are exactly the whitespace characters. */
  ghost predicate SpaceGaps(cls: char -> Class) {
    Regular(cls, ' ') && forall c: char :: cls(c).Keep? ==> !IsWhitespace(c) && cls(c).c == c
  }

  lemma TrimLoose(r: string, cls: char -> Class)
    requires SpaceGaps(cls) && Loose(r, cls, ' ')
    ensures Trim(r) == if r != [] && r[|r| - 1] == ' ' then r[..|r| - 1] else r
    ensures Canonical(Trim(r), cls, ' ')
  {
    assert TrimStart(r) == r;
    if r != [] && r[|r| - 1] == ' ' {
      var q := r[..|r| - 1];
      assert |q| > 0;
      assert q[|q| - 1] != ' ';
      assert TrimEnd(r) == TrimEnd(q) == q;
    }
  }

  /** Capping and trimming a canonical text: a prefix, all of it if it fits, and otherwise at most
      one character short of the cap. */
  lemma TidyShape(q: string, cls: char -> Class, max: nat)
    requires SpaceGaps(cls) && Canonical(q, cls, ' ')
    ensures
      var r := Trim(Take(q, max));
      r <= q && Canonical(r, cls, ' ') && |r| <= max && if |q| <= max then r == q else |r| >= max - 1
  {
    TrimLoose(Take(q, max), cls);
  }

  /** What a capped and trimmed name is: canonical, within the cap, made of the leading visible
      characters of the input, all of them if they fit with their separators and otherwise as many
      as do, and unchanged when it is normalised again. */
  lemma TidyCanonical(s: string, cls: char -> Class, max: nat, r: string)
    requires SpaceGaps(cls) && Tidy(Squeeze(s, cls, ' '), max) == Some(r)
    ensures Canonical(r, cls, ' ') && 1 <= |r| <= max
    ensures Kept(r, cls) <= Kept(s, cls)
    ensures if |Squeeze(s, cls, ' ')| <= max then Kept(r, cls) == Kept(s, cls) else |r| >= max - 1
    ensures Tidy(Squeeze(r, cls, ' '), max) == Some(r)
  {
    var q := Squeeze(s, cls, ' ');
    SqueezeCanonical(s, cls, ' ');
    TidyShape(q, cls, max);
    assert Kept(r, cls) <= Kept(s, cls) && (r == q ==> Kept(r, cls) == Kept(s, cls)) by {
      SqueezeKeeps(s, cls, ' ');
      KeptPrefix(q, |r|, cls);
      assert r == q[..|r|];
    }
    assert Squeeze(r, cls, ' ') == r by { SqueezeLoose(r, cls, ' '); }
    assert Take(r, max) == r && Trim(r) == r by { TrimLoose(r, cls); }
  }

  lemma DeviceNameCanonical(s: string, r: string)
    requires SanitizedDeviceName(s) == Some(r)
    ensures Canonical(r, DeviceClass, ' ') && 1 <= |r| <= 64
    ensures forall i :: 0 <= i < |r| ==> !IsControl(r[i]) && (IsWhitespace(r[i]) ==> r[i] == ' ')
    ensures Kept(r, DeviceClass) <= Kept(s, DeviceClass)
    ensures if |Squeeze(s, DeviceClass, ' ')| <= 64 then Kept(r, DeviceClass) == Kept(s, DeviceClass) else |r| >= 63
    ensures SanitizedDeviceName(r) == Some(r)
  {
    TidyCanonical(s, DeviceClass, MAX_DEVICE_NAME, r);
  }

  lemma TitleCanonical(s: string, r: string)
    requires NormalizedName(s) == Some(r)
    ensures Canonical(r, TitleClass, ' ') && 1 <= |r| <= 120
    ensures Kept(r, TitleClass) <= Kept(s, TitleClass)
    ensures if |Squeeze(s, TitleClass, ' ')| <= 120 then Kept(r, TitleClass) == Kept(s, TitleClass) else |r| >= 119
    ensures NormalizedName(r) == Some(r)
  {
    TidyCanonical(s, TitleClass, MAX_NAME_CHARS, r);
  }

  /** A device name is cleared exactly when nothing visible was supplied. */
  lemma DeviceNameCleared(s: string)
    ensures SanitizedDeviceName(s) == None <==> forall c :: c in s ==> IsWhitespace(c) || IsControl(c)
  {
    var q := Squeeze(s, DeviceClass, ' ');
    SqueezeCanonical(s, DeviceClass, ' ');
    TrimLoose(Take(q, MAX_DEVICE_NAME), DeviceClass);
    SqueezeEmpty(s, DeviceClass, ' ');
  }

  lemma {:induction false} SqueezeEmpty(s: string, cls: char -> Class, sep: char)
    ensures Squeeze(s, cls, sep) == [] <==> forall c :: c in s ==> !cls(c).Keep?
  {
    if s != [] {
      SqueezeEmpty(s[..|s| - 1], cls, sep);
      assert s == s[..|s| - 1] + [s[|s| - 1]];
    }
  }

  /** What the spacing loops hold after reading a prefix. */
  ghost function Spaced(p: string, cls: char -> Class): string {
    Squeeze(p, cls, ' ') + (if GapPending(p, cls) && Squeeze(p, cls, ' ') != [] then " " else "")
  }

  lemma ReadOne(p: string, ch: char, cls: char -> Class, sep: char)
    ensures GapPending(p + [ch], cls) <==> (cls(ch).Gap? || (cls(ch).Drop? && GapPending(p, cls)))
    ensures !cls(ch).Keep? ==> Squeeze(p + [ch], cls, sep) == Squeeze(p, cls, sep)
    ensures cls(ch).Keep? ==>
              Squeeze(p + [ch], cls, sep)
              == Squeeze(p, cls, sep)
                 + (if Squeeze(p, cls, sep) != [] && GapPending(p, cls) then [sep] else []) + [cls(ch).c]
  {
    assert (p + [ch])[..|p|] == p;
  }

  /** Stopping the loop at the cap loses nothing that the capped closed form keeps. */
  lemma StoppedEarly(s: string, i: nat, cls: char -> Class, max: nat)
    requires SpaceGaps(cls) && i <= |s| && |Spaced(s[..i], cls)| <= max
    requires i == |s| || |Spaced(s[..i], cls)| == max
    ensures Trim(Spaced(s[..i], cls)) == Trim(Take(Squeeze(s, cls, ' '), max))
  {
    var p, out, q := Squeeze(s[..i], cls, ' '), Spaced(s[..i], cls), Squeeze(s, cls, ' ');
    SqueezeExtends(s, i, cls, ' ');
    SqueezeCanonical(s[..i], cls, ' ');
    SqueezeCanonical(s, cls, ' ');
    assert p == q[..|p|];
    if i == |s| {
      assert s[..i] == s;
      assert Take(q, max) == q;
    }
    TrimSpaced(p, out, q, cls, max);
  }

  /** `out` is a canonical text or that text and one space, and a beginning of `q`. */
  lemma TrimSpaced(p: string, out: string, q: string, cls: char -> Class, max: nat)
    requires SpaceGaps(cls) && Canonical(p, cls, ' ') && Canonical(q, cls, ' ')
    requires out == p || (p != [] && out == p + " ")
    requires p <= q && |out| <= max && (p == q || |out| == max)
    requires out != p && |q| > |p| ==> q[|p|] == ' '
    ensures Trim(out) == Trim(Take(q, max))
  {
    if p == q {
      assert Take(q, max) == q;
      assert Trim(q) == q by { TrimLoose(q, cls); }
      if out != p {
        assert Trim(out) == p by { TrimLoose(out, cls); assert out[..|out| - 1] == p; }
      }
    } else {
      assert out == q[..|out|];
    }
  }

  method SanitizeDeviceName(name: string) returns (r: Option<string>)
    ensures r == SanitizedDeviceName(name)
  {
    var out, prevSpace, i := "", false, 0;
    while i < |name|
      invariant 0 <= i <= |name|
      invariant out == Spaced(name[..i], DeviceClass)
      invariant prevSpace <==> GapPending(name[..i], DeviceClass)
      invariant |out| < MAX_DEVICE_NAME
    {
      var ch := name[i];
      i := i + 1;
      assert name[..i] == name[..i - 1] + [ch];
      ReadOne(name[..i - 1], ch, DeviceClass, ' ');
      if IsWhitespace(ch) {
        if !prevSpace && out != [] {
          out := out + [' '];
        }
        prevSpace := true;
      } else if IsControl(ch) {
        continue;
      } else {
        out := out + [ch];
        prevSpace := false;
      }
      if |out| >= MAX_DEVICE_NAME {
        break;
      }
    }
    assert out == Spaced(name[..i], DeviceClass);
    StoppedEarly(name, i, DeviceClass, MAX_DEVICE_NAME);
    assert Trim(out) == Trim(Take(Squeeze(name, DeviceClass, ' '), MAX_DEVICE_NAME));
    out := Trim(out);
    r := if out == [] then None else Some(out);
  }

  method NormalizeName(text: string) returns (r: Option<string>)
    ensures r == NormalizedName(text)
  {
    var out, prevSpace, i := "", true, 0;
    while i < |text|
      invariant 0 <= i <= |text|
      invariant out == Spaced(text[..i], TitleClass)
      invariant prevSpace <==> GapPending(text[..i], TitleClass) || out == []
      invariant |out| < MAX_NAME_CHARS
    {
      var ch := text[i];
      i := i + 1;
      assert text[..i] == text[..i - 1] + [ch];
      ReadOne(text[..i - 1], ch, TitleClass, ' ');
      if IsWhitespace(ch) {
        if !prevSpace && out != [] {
          out := out + [' '];
        }
        prevSpace := true;
      } else {
        out := out + [ch];
        prevSpace := false;
      }
      if |out| >= MAX_NAME_CHARS {
        break;
      }
    }
    assert out == Spaced(text[..i], TitleClass);
    StoppedEarly(text, i, TitleClass, MAX_NAME_CHARS);
    assert Trim(out) == Trim(Take(Squeeze(text, TitleClass, ' '), MAX_NAME_CHARS));
    out := Trim(out);
    r := if out == [] then None else Some(out);
  }

  // ---------------------------------------------------------------- slugs

  const SLUG_CAP: nat := 48

  function SlugClass(c: char): Class {
    if IsDigit(c) || IsLower(c) then Keep(c) else if IsUpper(c) then Keep(ToLower(c)) else Gap
  }

  /** Where the loop stops: at the cap, or one past it when the cap falls on a dash, since a dash
      and the character after it are pushed together. */
  function SlugCut(r: string): (n: nat)
    ensures n <= |r|
  {
    if |r| < SLUG_CAP then |r|
    else if r[SLUG_CAP - 1] == '-' && |r| > SLUG_CAP then SLUG_CAP + 1
    else SLUG_CAP
  }

  function Slug(s: string): string {
    var r := Squeeze(s, SlugClass, '-');
    r[..SlugCut(r)]
  }

  predicate SlugChar(c: char) { IsDigit(c) || IsLower(c) || c == '-' }

  /** Slugs are runs of lower-case letters and digits joined by single dashes, at most 49
      characters long, and slugging one again changes nothing. */
  lemma SlugCanonical(s: string)
    ensures Canonical(Slug(s), SlugClass, '-') && |Slug(s)| <= 49
    ensures forall i :: 0 <= i < |Slug(s)| ==> SlugChar(Slug(s)[i])
    ensures Kept(Slug(s), SlugClass) <= Kept(s, SlugClass)
    ensures
      if |Squeeze(s, SlugClass, '-')| <= 48 then Kept(Slug(s), SlugClass) == Kept(s, SlugClass) else |Slug(s)| >= 48
    ensures Slug(Slug(s)) == Slug(s)
  {
    var r, g := Squeeze(s, SlugClass, '-'), Slug(s);
    assert Canonical(g, SlugClass, '-') by { SqueezeCanonical(s, SlugClass, '-'); }
    assert Kept(g, SlugClass) <= Kept(s, SlugClass) && (|r| <= 48 ==> Kept(g, SlugClass) == Kept(s, SlugClass)) by {
      SqueezeKeeps(s, SlugClass, '-');
      KeptPrefix(r, |g|, SlugClass);
      assert |r| <= 48 ==> g == r;
    }
    assert Slug(g) == g by { SqueezeLoose(g, SlugClass, '-'); }
  }

  /** The bound of 49 is reached, one above the nominal cap of 48. */
  lemma SlugCanReach49(r: string)
    requires |r| == 49 && r[47] == '-' && forall i :: 0 <= i < 49 && i != 47 ==> IsLower(r[i])
    ensures Slug(r) == r
  {
    SqueezeLoose(r, SlugClass, '-');
    assert r[..49] == r;
  }

  lemma SlugStopped(s: string, i: nat)
    requires i <= |s|
    requires
      var out := Squeeze(s[..i], SlugClass, '-');
      if |out| < SLUG_CAP then i == |s|
      else |out| == SLUG_CAP || (|out| == SLUG_CAP + 1 && out[SLUG_CAP - 1] == '-')
    ensures Squeeze(s[..i], SlugClass, '-') == Slug(s)
  {
    var out, r := Squeeze(s[..i], SlugClass, '-'), Squeeze(s, SlugClass, '-');
    SqueezeExtends(s, i, SlugClass, '-');
    SqueezeCanonical(s[..i], SlugClass, '-');
    assert i == |s| ==> s[..i] == s;
    assert out == r[..|out|];
    assert |out| >= SLUG_CAP ==> out[|out| - 1] != '-' && r[|out| - 1] == out[|out| - 1];
  }

  method Slugify(input: string) returns (out: string)
    ensures out == Slug(input)
  {
    var pendingDash, i := false, 0;
    out := "";
    while i < |input|
      invariant 0 <= i <= |input|
      invariant out == Squeeze(input[..i], SlugClass, '-')
      invariant pendingDash <==> GapPending(input[..i], SlugClass)
      invariant |out| < SLUG_CAP
    {
      var ch := input[i];
      i := i + 1;
      assert input[..i] == input[..i - 1] + [ch];
      ReadOne(input[..i - 1], ch, SlugClass, '-');
      if IsDigit(ch) || IsLower(ch) || IsUpper(ch) {
        if pendingDash && out != [] {
          out := out + ['-'];
        }
        pendingDash := false;
        out := out + [ToLower(ch)];
      } else {
        pendingDash := true;
      }
      assert out == Squeeze(input[..i], SlugClass, '-');
      if |out| >= SLUG_CAP {
        break;
      }
    }
    SlugStopped(input, i);
  }
}
