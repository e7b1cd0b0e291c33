/** Version strings: parsing, normalisation and forward compatibility (src/loopmaster/checkpoint/migration.py). */
module Versions {
  import opened Values
  import opened Strings

  datatype SemVer = SemVer(major: nat, minor: nat, patch: nat, prerelease: string)

  // ---------- Characters and numerals ----------

  predicate IsDigit(c: char) { '0' <= c <= '9' }

  predicate IsPreChar(c: char) {
    IsDigit(c) || 'A' <= c <= 'Z' || 'a' <= c <= 'z' || c == '.' || c == '-'
  }

  predicate AllPreChars(s: string) {
    forall i :: 0 <= i < |s| ==> IsPreChar(s[i])
  }

  lemma VersionCharacters(c: char)
    ensures IsDigit(c) <==> 48 <= c as int <= 57
    ensures IsPreChar(c) <==>
              48 <= c as int <= 57 || 65 <= c as int <= 90 || 97 <= c as int <= 122 || c == '.' || c == '-'
  {}

  function DropLeadingV(s: string): string {
    if s != "" && s[0] == 'v' then DropLeadingV(s[1..]) else s
  }

  /** The number of leading digits. */
  function DigitSpan(s: string): (n: nat)
    ensures n <= |s|
  {
    if s != "" && IsDigit(s[0]) then 1 + DigitSpan(s[1..]) else 0
  }

  function ToNat(s: string): nat
    requires forall i :: 0 <= i < |s| ==> IsDigit(s[i])
  {
    if s == "" then 0
    else
      assert IsDigit(s[|s| - 1]);
      10 * ToNat(s[..|s| - 1]) + (s[|s| - 1] as int - '0' as int)
  }

  function Digit(d: nat): char
    requires d < 10
  {
    ('0' as int + d) as char
  }

  /** Decimal numeral without leading zeros. */
  function Decimal(n: nat): string {
    if n < 10 then [Digit(n)] else Decimal(n / 10) + [Digit(n % 10)]
  }

  // ---------- Parsing and printing ----------

  /** A dot and a number, if they come next; otherwise 0 and nothing is consumed. */
  function OptionalPart(s: string): (nat, string) {
    if s != "" && s[0] == '.' && DigitSpan(s[1..]) > 0 then
      var n := DigitSpan(s[1..]);
      SpanDigits(s[1..]);
      (ToNat(s[1..][..n]), s[1..][n..])
    else (0, s)
  }

  function ParseBody(s: string): Option<SemVer> {
    var n := DigitSpan(s);
    if n == 0 then None
    else
      SpanDigits(s);
      var major := ToNat(s[..n]);
      var (minor, afterMinor) := OptionalPart(s[n..]);
      var (patch, rest) := OptionalPart(afterMinor);
      if rest == "" then Some(SemVer(major, minor, patch, ""))
      else if rest[0] == '-' && |rest| > 1 && AllPreChars(rest[1..]) then Some(SemVer(major, minor, patch, rest[1..]))
      else None
  }

  function Parse(s: string): Option<SemVer> {
    var t := Strip(s);
    ParseBody(if t != "" && t[0] == 'v' then t[1..] else t)
  }

  function Show(v: SemVer): string {
    Decimal(v.major) + ("." + (Decimal(v.minor) + ("." + (Decimal(v.patch)
      + if v.prerelease == "" then "" else "-" + v.prerelease))))
  }

  function Normalize(s: string): string {
    match Parse(s)
    case Some(v) => Show(v)
    case None => DropLeadingV(Strip(s))
  }

  lemma {:induction false} SpanDigits(s: string)
    ensures forall i :: 0 <= i < DigitSpan(s) ==> IsDigit(s[i])
    ensures DigitSpan(s) < |s| ==> !IsDigit(s[DigitSpan(s)])
  {
    if s != "" && IsDigit(s[0]) {
      SpanDigits(s[1..]);
      forall i | 0 <= i < DigitSpan(s) ensures IsDigit(s[i]) {
        if i > 0 { assert s[i] == s[1..][i - 1]; }
      }
    }
  }

  lemma {:induction false} DecimalReads(n: nat)
    ensures Decimal(n) != "" && (forall i :: 0 <= i < |Decimal(n)| ==> IsDigit(Decimal(n)[i]))
    ensures ToNat(Decimal(n)) == n
  {
    if n >= 10 {
      DecimalReads(n / 10);
      assert Decimal(n)[..|Decimal(n)| - 1] == Decimal(n / 10);
    }
  }

  lemma {:induction false} SpanOfDigits(d: string, rest: string)
    requires forall i :: 0 <= i < |d| ==> IsDigit(d[i])
    requires rest != "" ==> !IsDigit(rest[0])
    ensures DigitSpan(d + rest) == |d|
  {
    if d == "" {
      assert d + rest == rest;
    } else {
      assert (d + rest)[1..] == d[1..] + rest;
      SpanOfDigits(d[1..], rest);
    }
  }

  lemma PartReads(n: nat, rest: string)
    requires rest != "" ==> !IsDigit(rest[0])
    ensures OptionalPart("." + (Decimal(n) + rest)) == (n, rest)
  {
    var s := "." + (Decimal(n) + rest);
    DecimalReads(n);
    SpanOfDigits(Decimal(n), rest);
    assert s[1..] == Decimal(n) + rest;
    assert s[1..][..|Decimal(n)|] == Decimal(n) && s[1..][|Decimal(n)|..] == rest;
  }

  /** What follows the major number in a printed version. */
  function ShowTail(v: SemVer): string {
    "." + (Decimal(v.minor) + ("." + (Decimal(v.patch) + if v.prerelease == "" then "" else "-" + v.prerelease)))
  }

  lemma ParseBodyShow(v: SemVer)
    requires AllPreChars(v.prerelease)
    ensures ParseBody(Show(v)) == Some(v)
  {
    var pre := if v.prerelease == "" then "" else "-" + v.prerelease;
    var patchPart := "." + (Decimal(v.patch) + pre);
    var n := |Decimal(v.major)|;
    DecimalReads(v.major);
    SpanOfDigits(Decimal(v.major), ShowTail(v));
    assert Show(v)[..n] == Decimal(v.major) && Show(v)[n..] == ShowTail(v);
    PartReads(v.minor, patchPart);
    PartReads(v.patch, pre);
    if pre != "" { assert pre[1..] == v.prerelease; }
  }

  /** A printed version starts with a digit and ends with no space. */
  lemma ShowEnds(v: SemVer)
    requires AllPreChars(v.prerelease)
    ensures Show(v) != "" && IsDigit(Show(v)[0]) && !IsSpace(Show(v)[|Show(v)| - 1])
  {
    var s, p := Show(v), Decimal(v.patch);
    DecimalReads(v.major);
    DecimalReads(v.patch);
    if v.prerelease == "" {
      assert s == Decimal(v.major) + ("." + (Decimal(v.minor) + ("." + p)));
      assert s[|s| - 1] == p[|p| - 1] && IsDigit(p[|p| - 1]);
    } else {
      var q := v.prerelease;
      assert s[|s| - 1] == q[|q| - 1] && IsPreChar(q[|q| - 1]);
    }
  }

  /** Every version prints to a string that parses back to it. */
  lemma ParseShow(v: SemVer)
    requires AllPreChars(v.prerelease)
    ensures Parse(Show(v)) == Some(v)
  {
    ShowEnds(v);
    StripIdle(Show(v));
    ParseBodyShow(v);
  }

  lemma StripIdle(s: string)
    requires s != "" && IsDigit(s[0]) && !IsSpace(s[|s| - 1])
    ensures Strip(s) == s && s[0] != 'v'
  {}

  lemma ParsedPrerelease(s: string)
    ensures Parse(s).Some? ==> AllPreChars(Parse(s).value.prerelease)
  {}

  /** Normalising keeps the version a parseable string denotes, and is idempotent on it. */
  lemma NormalizeRoundTrip(s: string)
    requires Parse(s).Some?
    ensures Parse(Normalize(s)) == Parse(s)
    ensures Normalize(Normalize(s)) == Normalize(s)
  {
    ParsedPrerelease(s);
    ParseShow(Parse(s).value);
  }

  /** Two spellings normalise alike exactly when they denote the same version. */
  lemma SameVersionSameSpelling(s: string, t: string)
    requires Parse(s).Some? && Parse(t).Some?
    ensures Normalize(s) == Normalize(t) <==> Parse(s) == Parse(t)
  {
    NormalizeRoundTrip(s);
    NormalizeRoundTrip(t);
  }

  lemma {:induction false} DropsAllV(s: string)
    ensures |DropLeadingV(s)| <= |s| && (DropLeadingV(s) != "" ==> DropLeadingV(s)[0] != 'v')
    ensures DropLeadingV(s) != "" ==> s != "" && DropLeadingV(s)[|DropLeadingV(s)| - 1] == s[|s| - 1]
    ensures s == "" || s[0] != 'v' ==> DropLeadingV(s) == s
  {
    if s != "" && s[0] == 'v' { DropsAllV(s[1..]); }
  }

  lemma {:induction false} RightStripped(s: string)
    ensures |StripRight(s)| <= |s|
    ensures StripRight(s) != "" ==> !IsSpace(StripRight(s)[|StripRight(s)| - 1])
    ensures s == "" || !IsSpace(s[|s| - 1]) ==> StripRight(s) == s
  {
    if s != "" && IsSpace(s[|s| - 1]) { RightStripped(s[..|s| - 1]); }
  }

  lemma {:induction false} LeftStripped(s: string)
    ensures |StripLeft(s)| <= |s|
    ensures s != "" && IsSpace(s[0]) ==> |StripLeft(s)| < |s|
  {
    if s != "" && IsSpace(s[0]) { LeftStripped(s[1..]); }
  }

  /** A text that does not read as a version is stripped of spaces on the right and of leading v's only. */
  lemma UnparsedIsStable(t: string)
    requires Parse(t).None? && (t != "" ==> t[0] != 'v' && !IsSpace(t[|t| - 1]))
    ensures Normalize(t) == t <==> t == "" || !IsSpace(t[0])
  {
    LeftStripped(t);
    RightStripped(StripLeft(t));
    RightStripped(t);
    DropsAllV(Strip(t));
  }

  lemma StableExactly(t: string)
    requires t != "" ==> t[0] != 'v' && !IsSpace(t[|t| - 1])
    ensures Normalize(t) == t <==> (t == "" || !IsSpace(t[0])) && (Parse(t).Some? ==> t == Show(Parse(t).value))
  {
    if Parse(t).Some? {
      ParsedPrerelease(t);
      ShowEnds(Parse(t).value);
    } else {
      UnparsedIsStable(t);
    }
  }

  /**
   * Normalising twice is the same as normalising once exactly when the string is a version, or
   * what is left of it without spaces and leading v's starts with no space and is, if it is a
   * version, spelled as the normal form spells it.
   */
  lemma NormalizeTwiceExactly(s: string)
    ensures Normalize(Normalize(s)) == Normalize(s) <==>
              var t := DropLeadingV(Strip(s));
              || Parse(s).Some?
              || ((t == "" || !IsSpace(t[0])) && (Parse(t).Some? ==> t == Show(Parse(t).value)))
  {
    if Parse(s).Some? {
      NormalizeRoundTrip(s);
    } else {
      RightStripped(StripLeft(s));
      DropsAllV(Strip(s));
      StableExactly(DropLeadingV(Strip(s)));
    }
  }

  /** A string on which a second pass changes the result: the first drops every leading v. */
  lemma NormalizeTwiceDiffers()
    ensures Parse("vv1").None? && Normalize("vv1") == "1" && Normalize("1") == "1.0.0"
  {
    assert Strip("vv1") == "vv1" && "vv1"[1..] == "v1" && "v1"[1..] == "1";
    assert DropLeadingV("v1") == "1";
    ParseOne();
    assert Decimal(1) == "1" && Decimal(0) == "0";
    assert Show(SemVer(1, 0, 0, "")) == "1" + ("." + ("0" + ("." + ("0" + ""))));
  }

  lemma ParseOne()
    ensures Parse("1") == Some(SemVer(1, 0, 0, ""))
  {
    assert Strip("1") == "1" && "1"[1..] == "" && "1"[..1] == "1";
    assert DigitSpan("1") == 1;
    assert ToNat("1") == 10 * ToNat("1"[..0]) + 1;
  }

  // ---------- What parses ----------

  predicate Numeral(d: string) {
    d != "" && forall i :: 0 <= i < |d| ==> IsDigit(d[i])
  }

  /** A part of a version is missing and counts as 0, or is a dot and a number. */
  predicate PartSpells(p: string, n: nat) {
    if p == "" then n == 0 else p[0] == '.' && Numeral(p[1..]) && ToNat(p[1..]) == n
  }

  /** A prerelease is missing, or is a dash and at least one letter, digit, dot or dash. */
  predicate PreSpells(p: string, pre: string) {
    if p == "" then pre == "" else p[0] == '-' && |p| > 1 && AllPreChars(p[1..]) && pre == p[1..]
  }

  predicate SpelledBy(t: string, v: SemVer, a: string, b: string, c: string, p: string) {
    && t == a + (b + (c + p)) && Numeral(a) && ToNat(a) == v.major
    && PartSpells(b, v.minor) && PartSpells(c, v.patch) && (b == "" ==> c == "") && PreSpells(p, v.prerelease)
  }

  /** The text spells the version: a major number, then at most a minor, a patch and a prerelease. */
  ghost predicate Spells(t: string, v: SemVer) {
    exists a, b, c, p :: SpelledBy(t, v, a, b, c, p)
  }

  /** A part that is there is read, and one that is missing leaves all to the rest. */
  lemma PartIsRead(b: string, n: nat, rest: string)
    requires PartSpells(b, n) && (rest != "" ==> !IsDigit(rest[0])) && (b == "" ==> rest == "" || rest[0] != '.')
    ensures OptionalPart(b + rest) == (n, rest)
  {
    var s := b + rest;
    if b == "" {
      assert s == rest;
    } else {
      assert s[1..] == b[1..] + rest;
      SpanOfDigits(b[1..], rest);
      assert s[1..][..|b| - 1] == b[1..] && s[1..][|b| - 1..] == rest;
    }
  }

  /** What is read of a part is one. */
  lemma ReadIsPart(s: string) returns (b: string)
    ensures s == b + OptionalPart(s).1 && PartSpells(b, OptionalPart(s).0)
    ensures b != "" ==> OptionalPart(s).1 == "" || !IsDigit(OptionalPart(s).1[0])
    ensures b == "" ==> OptionalPart(s).1 == s
    ensures b == "" ==> s == "" || s[0] != '.' || |s| == 1 || !IsDigit(s[1])
  {
    if s != "" && s[0] == '.' && DigitSpan(s[1..]) > 0 {
      var n := DigitSpan(s[1..]);
      SpanDigits(s[1..]);
      b := "." + s[1..][..n];
      assert b[1..] == s[1..][..n];
      assert s == [s[0]] + (s[1..][..n] + s[1..][n..]);
    } else {
      b := "";
    }
  }

  lemma ParsedIsSpelled(t: string)
    requires ParseBody(t).Some?
    ensures Spells(t, ParseBody(t).value)
  {
    var v, n := ParseBody(t).value, DigitSpan(t);
    SpanDigits(t);
    var (minor, afterMinor) := OptionalPart(t[n..]);
    var (patch, p) := OptionalPart(afterMinor);
    var b := ReadIsPart(t[n..]);
    var c := ReadIsPart(afterMinor);
    assert Numeral(t[..n]) && ToNat(t[..n]) == v.major && v.minor == minor && v.patch == patch;
    assert PreSpells(p, v.prerelease);
    FourParts(t, n, b, afterMinor, c, p);
    assert SpelledBy(t, v, t[..n], b, c, p);
  }

  lemma FourParts(t: string, n: nat, b: string, rest: string, c: string, p: string)
    requires n <= |t| && t[n..] == b + rest && rest == c + p
    ensures t == t[..n] + (b + (c + p))
  {}

  lemma SpelledIsParsed(t: string, v: SemVer, a: string, b: string, c: string, p: string)
    requires SpelledBy(t, v, a, b, c, p)
    ensures ParseBody(t) == Some(v)
  {
    var rest := b + (c + p);
    assert c + p != "" ==> !IsDigit((c + p)[0]);
    assert rest != "" ==> !IsDigit(rest[0]);
    SpanOfDigits(a, rest);
    assert t[..|a|] == a && t[|a|..] == rest;
    PartIsRead(b, v.minor, c + p);
    PartIsRead(c, v.patch, p);
  }

  lemma ParseBodyExactly(t: string, v: SemVer)
    ensures ParseBody(t) == Some(v) <==> Spells(t, v)
  {
    if ParseBody(t) == Some(v) { ParsedIsSpelled(t); }
    if Spells(t, v) {
      var a, b, c, p :| SpelledBy(t, v, a, b, c, p);
      SpelledIsParsed(t, v, a, b, c, p);
    }
  }

  /** A string parses, white space aside, exactly if it spells a version, after at most one v. */
  lemma ParseExactly(s: string, v: SemVer)
    ensures Parse(s) == Some(v) <==>
              var t := Strip(s);
              if t != "" && t[0] == 'v' then Spells(t[1..], v) else Spells(t, v)
  {
    var t := Strip(s);
    ParseBodyExactly(if t != "" && t[0] == 'v' then t[1..] else t, v);
  }

  /** The normal form of what does not parse: leading v's are dropped, all of them and nothing else. */
  lemma UnparsedForm(s: string) returns (vs: string)
    requires Parse(s).None?
    ensures Strip(s) == vs + Normalize(s) && (forall i :: 0 <= i < |vs| ==> vs[i] == 'v')
    ensures Normalize(s) != "" ==> Normalize(s)[0] != 'v'
  {
    vs := LeadingV(Strip(s));
  }

  lemma {:induction false} LeadingV(s: string) returns (vs: string)
    ensures s == vs + DropLeadingV(s) && (forall i :: 0 <= i < |vs| ==> vs[i] == 'v')
    ensures DropLeadingV(s) != "" ==> DropLeadingV(s)[0] != 'v'
  {
    if s != "" && s[0] == 'v' {
      var rest := LeadingV(s[1..]);
      vs := "v" + rest;
      assert s == "v" + s[1..];
    } else {
      vs := "";
    }
  }

  // ---------- Order and compatibility ----------

  /** Code-point order on strings, the shorter first. */
  predicate LexLe(s: string, t: string) {
    s == "" || (t != "" && (s[0] < t[0] || (s[0] == t[0] && LexLe(s[1..], t[1..]))))
  }

  predicate Le(a: SemVer, b: SemVer) {
    a.major < b.major || (a.major == b.major &&
      (a.minor < b.minor || (a.minor == b.minor &&
        (a.patch < b.patch || (a.patch == b.patch && LexLe(a.prerelease, b.prerelease))))))
  }

  /** A checkpoint of version `a` may be resumed by a loop of version `b`. */
  predicate CompatibleWith(a: SemVer, b: SemVer) {
    if a.major != b.major then false
    else if a.major == 0 then a.minor == b.minor && Le(a, b)
    else Le(a, b)
  }

  // ---------- Compatibility in numbers ----------

  /** Up to the first difference the texts read alike, and there the first one ends or is smaller. */
  ghost predicate ReadsBefore(s: string, t: string) {
    exists k: nat :: k <= |s| && DiffersAt(s, t, k)
  }

  predicate DiffersAt(s: string, t: string, k: nat)
    requires k <= |s|
  {
    k <= |t| && s[..k] == t[..k] && (k == |s| || (k < |t| && s[k] < t[k]))
  }

  lemma HeadDecides(s: string, t: string)
    requires s != "" && t != "" && ReadsBefore(s, t)
    ensures s[0] <= t[0]
  {
    var k: nat :| k <= |s| && DiffersAt(s, t, k);
    if k > 0 { assert s[..k][0] == s[0] && t[..k][0] == t[0]; }
  }

  lemma {:induction false} LexReadsBefore(s: string, t: string)
    ensures LexLe(s, t) <==> ReadsBefore(s, t)
  {
    if s == "" {
      assert DiffersAt(s, t, 0);
    } else if t == "" {
    } else if s[0] != t[0] {
      if ReadsBefore(s, t) { HeadDecides(s, t); }
      if s[0] < t[0] { assert DiffersAt(s, t, 0); }
    } else {
      LexReadsBefore(s[1..], t[1..]);
      if k: nat :| k <= |s[1..]| && DiffersAt(s[1..], t[1..], k) {
        assert s[..k + 1] == [s[0]] + s[1..][..k] && t[..k + 1] == [t[0]] + t[1..][..k];
        assert DiffersAt(s, t, k + 1);
      }
      if k: nat :| k <= |s| && DiffersAt(s, t, k) && k > 0 {
        assert s[1..][..k - 1] == s[..k][1..] && t[1..][..k - 1] == t[..k][1..];
        assert DiffersAt(s[1..], t[1..], k - 1);
      }
    }
  }

  /** A checkpoint of version `a` is no newer than a loop of version `b` and of the same compatibility line. */
  ghost predicate ResumesInto(a: SemVer, b: SemVer) {
    && a.major == b.major
    && (a.major == 0 ==> a.minor == b.minor)
    && a.minor <= b.minor
    && (a.minor == b.minor ==> a.patch <= b.patch)
    && (a.minor == b.minor && a.patch == b.patch ==> ReadsBefore(a.prerelease, b.prerelease))
  }

  /**
   * The direction of compatibility, number by number: an older checkpoint resumes in a newer loop
   * of the same major version (below version 1, of the same minor version), and not conversely.
   */
  lemma CompatibleExactly(a: SemVer, b: SemVer)
    ensures CompatibleWith(a, b) <==> ResumesInto(a, b)
    ensures a.major == b.major > 0 && a.minor < b.minor ==> CompatibleWith(a, b) && !CompatibleWith(b, a)
    ensures a.major == b.major && a.minor == b.minor && a.patch < b.patch ==>
              CompatibleWith(a, b) && !CompatibleWith(b, a)
    ensures a.major == b.major == 0 && a.minor != b.minor ==> !CompatibleWith(a, b)
    ensures b == a.(prerelease := b.prerelease) && a.prerelease == "" ==> CompatibleWith(a, b)
  {
    LexReadsBefore(a.prerelease, b.prerelease);
    LexReadsBefore(b.prerelease, a.prerelease);
  }

  lemma {:induction false} LexReflexive(s: string)
    ensures LexLe(s, s)
  {
    if s != "" { LexReflexive(s[1..]); }
  }

  lemma {:induction false} LexAntisymmetric(s: string, t: string)
    requires LexLe(s, t) && LexLe(t, s)
    ensures s == t
  {
    if s != "" && t != "" {
      LexAntisymmetric(s[1..], t[1..]);
      assert s == [s[0]] + s[1..] && t == [t[0]] + t[1..];
    }
  }

  lemma {:induction false} LexTransitive(s: string, t: string, u: string)
    requires LexLe(s, t) && LexLe(t, u)
    ensures LexLe(s, u)
  {
    if s != "" && t[0] == s[0] && u[0] == t[0] { LexTransitive(s[1..], t[1..], u[1..]); }
  }

  /** Compatibility is a partial order, and never crosses a major version. */
  lemma CompatiblePartialOrder(a: SemVer, b: SemVer, c: SemVer)
    ensures CompatibleWith(a, a)
    ensures CompatibleWith(a, b) && CompatibleWith(b, a) ==> a == b
    ensures CompatibleWith(a, b) && CompatibleWith(b, c) ==> CompatibleWith(a, c)
  {
    LexReflexive(a.prerelease);
    if LexLe(a.prerelease, b.prerelease) && LexLe(b.prerelease, a.prerelease) {
      LexAntisymmetric(a.prerelease, b.prerelease);
    }
    if LexLe(a.prerelease, b.prerelease) && LexLe(b.prerelease, c.prerelease) {
      LexTransitive(a.prerelease, b.prerelease, c.prerelease);
    }
  }
}
