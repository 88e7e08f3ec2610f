/** The launcher's version numbers: `X.Y.Z` whose three parts are read by
    `int()`, with an optional `v` or `V` prefix. Precedence is that of section
    11 of Semantic Versioning 2.0.0, but the format is looser than its section
    2: `int()` also accepts leading zeroes, a sign (`+1`, `-0`), digit
    separators (`1_0`) and, around a part, the whitespace it skips (ASCII
    0x09-0x0D and the space, and non-ASCII Unicode whitespace, but not
    U+001C-U+001F), and there is no pre-release or build metadata. */
module Versioning {
  import opened Common

  datatype SemVer = SemVer(major: int, minor: int, patch: int)
  {
    /** `SemVer.to_tuple()`. */
    function ToTuple(): (t: seq<int>)
      ensures |t| == 3 && t[0] == major && t[1] == minor && t[2] == patch
    {
      [major, minor, patch]
    }
  }

  /** The text after one optional `v` / `V` of an already stripped string,
      stripped again. */
  function Unprefixed(s: string): string {
    if s != [] && (s[0] == 'v' || s[0] == 'V') then Strip(s[1..]) else s
  }

  /** The three `.`-separated parts converted with `int()`; `v` is the original
      input, quoted in the error messages. */
  function ParseParts(s: string, v: string): (r: Result<SemVer>)
    ensures r.Err? ==> r.error.kind == ValueError && r.error.msg != "version is empty"
  {
    var parts := Split(s, '.');
    if |parts| != 3 then Err(Exc(ValueError, "invalid semver (expected x.y.z): " + v))
    else
      var major, minor, patch := ParseInt(parts[0]), ParseInt(parts[1]), ParseInt(parts[2]);
      if major.None? || minor.None? || patch.None? then
        Err(Exc(ValueError, "invalid semver (not int): " + v))
      else if major.value < 0 || minor.value < 0 || patch.value < 0 then
        Err(Exc(ValueError, "invalid semver (negative): " + v))
      else Ok(SemVer(major.value, minor.value, patch.value))
  }

  /** `parse_semver(v)`; an `Err` is the `ValueError` it raises. */
  function ParseSemver(v: string): (r: Result<SemVer>)
    ensures r.Ok? ==> r.value.major >= 0 && r.value.minor >= 0 && r.value.patch >= 0
    ensures r.Err? ==> r.error.kind == ValueError
    ensures Strip(v) == [] <==> r.Err? && r.error.msg == "version is empty"
  {
    var s := Strip(v);
    if s == [] then Err(Exc(ValueError, "version is empty"))
    else
      var r := ParseParts(Unprefixed(s), v);
      assert r.Err? ==> r.error.msg != "version is empty";
      r
  }

  /** Empty or blank input is exactly what raises "version is empty". */
  lemma BlankIsEmpty(v: string)
    ensures IsBlank(v) <==> ParseSemver(v).Err? && ParseSemver(v).error.msg == "version is empty"
  {
    StripEmptyIff(v);
  }

  /** Python's `<` on tuples of integers: the first differing position decides,
      and a proper prefix is smaller. */
  function TupleLess(a: seq<int>, b: seq<int>): bool {
    if a == [] then b != []
    else if b == [] then false
    else if a[0] != b[0] then a[0] < b[0]
    else TupleLess(a[1..], b[1..])
  }

  /** Precedence of normal versions as section 11 of Semantic Versioning 2.0.0
      defines it: major, then minor, then patch, compared numerically. */
  predicate Precedes(a: SemVer, b: SemVer) {
    || a.major < b.major
    || (a.major == b.major && a.minor < b.minor)
    || (a.major == b.major && a.minor == b.minor && a.patch < b.patch)
  }

  /** `compare_versions(local, server)`: -1 when an update is needed, 0 when
      equal, +1 when the local version is newer. Either side failing to parse
      raises, the local one first. */
  function CompareVersions(local: string, server: string): (r: Result<int>)
    ensures r.Ok? <==> ParseSemver(local).Ok? && ParseSemver(server).Ok?
    ensures ParseSemver(local).Err? ==> r == Err(ParseSemver(local).error)
    ensures ParseSemver(local).Ok? && ParseSemver(server).Err? ==> r == Err(ParseSemver(server).error)
    ensures r.Ok? ==> -1 <= r.value <= 1
    ensures r.Ok? ==> (r.value == -1 <==> Precedes(ParseSemver(local).value, ParseSemver(server).value))
    ensures r.Ok? ==> (r.value == 1 <==> Precedes(ParseSemver(server).value, ParseSemver(local).value))
    ensures r.Ok? ==> (r.value == 0 <==> ParseSemver(local).value == ParseSemver(server).value)
  {
    var l :- ParseSemver(local);
    var s :- ParseSemver(server);
    TupleLessIsPrecedence(l, s);
    TupleLessIsPrecedence(s, l);
    if TupleLess(l.ToTuple(), s.ToTuple()) then Ok(-1)
    else if TupleLess(s.ToTuple(), l.ToTuple()) then Ok(1)
    else Ok(0)
  }

  /** Tuple order on `to_tuple()` is exactly semantic-version precedence. */
  lemma TupleLessIsPrecedence(a: SemVer, b: SemVer)
    ensures TupleLess(a.ToTuple(), b.ToTuple()) <==> Precedes(a, b)
  {
    var x, y := a.ToTuple(), b.ToTuple();
    var x1, y1 := [a.minor, a.patch], [b.minor, b.patch];
    var x2, y2 := [a.patch], [b.patch];
    assert x[1..] == x1 && y[1..] == y1;
    assert x1[1..] == x2 && y1[1..] == y2;
    assert x2[1..] == [] && y2[1..] == [];
    assert TupleLess(x2, y2) <==> a.patch < b.patch;
    assert TupleLess(x1, y1) <==> a.minor < b.minor || (a.minor == b.minor && a.patch < b.patch);
  }

  /** Precedence is a strict total order on versions. */
  lemma PrecedesIsStrictTotalOrder(a: SemVer, b: SemVer, c: SemVer)
    ensures !Precedes(a, a)
    ensures Precedes(a, b) ==> !Precedes(b, a)
    ensures Precedes(a, b) && Precedes(b, c) ==> Precedes(a, c)
    ensures a == b || Precedes(a, b) || Precedes(b, a)
  {
  }

  /** Comparing in the other order negates the result. */
  lemma CompareAntisymmetric(a: string, b: string)
    requires CompareVersions(a, b).Ok?
    ensures CompareVersions(b, a) == Ok(-CompareVersions(a, b).value)
  {
    var l, s := ParseSemver(a).value, ParseSemver(b).value;
    CompareOfParsed(a, b);
    CompareOfParsed(b, a);
    PrecedesIsStrictTotalOrder(l, s, l);
  }

  /** The result of comparing two valid versions, from their precedence. */
  function Sign(l: SemVer, s: SemVer): int {
    if Precedes(l, s) then -1 else if Precedes(s, l) then 1 else 0
  }

  lemma CompareOfParsed(a: string, b: string)
    requires ParseSemver(a).Ok? && ParseSemver(b).Ok?
    ensures CompareVersions(a, b) == Ok(Sign(ParseSemver(a).value, ParseSemver(b).value))
  {
    var l, s := ParseSemver(a).value, ParseSemver(b).value;
    PrecedesIsStrictTotalOrder(l, s, l);
  }

  /** Every valid version compares equal to itself. */
  lemma CompareReflexive(a: string)
    requires ParseSemver(a).Ok?
    ensures CompareVersions(a, a) == Ok(0)
  {
  }

  // ---------------------------------------------------------------------------
  // Canonical text and the round trip
  // ---------------------------------------------------------------------------

  /** `X.Y.Z` with the parts in decimal and no leading zeroes. */
  function Format(sv: SemVer): string
    requires sv.major >= 0 && sv.minor >= 0 && sv.patch >= 0
  {
    NatToString(sv.major) + "." + NatToString(sv.minor) + "." + NatToString(sv.patch)
  }

  /** `(a + "." + b + "." + c).split(".")` for dot-free pieces. */
  lemma SplitThree(a: string, b: string, c: string)
    requires '.' !in a && '.' !in b && '.' !in c
    ensures Split(a + "." + b + "." + c, '.') == [a, b, c]
  {
    var parts := [a, b, c];
    assert Join(parts, '.') == a + "." + b + "." + c by {
      assert parts[1..] == [b, c];
      assert [b, c][1..] == [c];
      assert Join([b, c], '.') == b + "." + c;
      assert Join(parts, '.') == a + "." + (b + "." + c);
    }
    SplitJoin(parts, '.');
  }

  lemma FormatSplits(sv: SemVer)
    requires sv.major >= 0 && sv.minor >= 0 && sv.patch >= 0
    ensures Split(Format(sv), '.') == [NatToString(sv.major), NatToString(sv.minor), NatToString(sv.patch)]
  {
    var a, b, c := NatToString(sv.major), NatToString(sv.minor), NatToString(sv.patch);
    assert '.' !in a && '.' !in b && '.' !in c by {
      assert forall i :: 0 <= i < |a| ==> IsDigit(a[i]);
      assert forall i :: 0 <= i < |b| ==> IsDigit(b[i]);
      assert forall i :: 0 <= i < |c| ==> IsDigit(c[i]);
    }
    SplitThree(a, b, c);
  }

  /** The canonical text starts with a digit and is its own `strip()`. */
  lemma FormatIsTrimmed(sv: SemVer)
    requires sv.major >= 0 && sv.minor >= 0 && sv.patch >= 0
    ensures IsDigit(Format(sv)[0]) && Strip(Format(sv)) == Format(sv)
  {
    var f := Format(sv);
    var a, c := NatToString(sv.major), NatToString(sv.patch);
    assert f[0] == a[0] && f[|f| - 1] == c[|c| - 1];
    DigitIsNotSpace(a[0]);
    DigitIsNotSpace(c[|c| - 1]);
    StripOfTrimmed(f);
  }

  /** Text that needs no stripping and has no prefix goes straight to the parts. */
  lemma ParseOfPlain(f: string)
    requires f != [] && IsDigit(f[0]) && Strip(f) == f
    ensures ParseSemver(f) == ParseParts(f, f)
  {
  }

  /** Three digit strings separated by dots parse to their values. */
  lemma ParsePartsOfDigits(f: string, a: string, b: string, c: string)
    requires Split(f, '.') == [a, b, c]
    requires a != [] && b != [] && c != [] && AllDigits(a) && AllDigits(b) && AllDigits(c)
    ensures ParseParts(f, f) == Ok(SemVer(DecimalValue(a), DecimalValue(b), DecimalValue(c)))
  {
    assert ParseInt(a) == Some(DecimalValue(a) as int) by {
      ParseIntOfDigits(a);
    }
    assert ParseInt(b) == Some(DecimalValue(b) as int) by {
      ParseIntOfDigits(b);
    }
    assert ParseInt(c) == Some(DecimalValue(c) as int) by {
      ParseIntOfDigits(c);
    }
    ThreeIntParts(f, f, a, b, c, DecimalValue(a), DecimalValue(b), DecimalValue(c));
  }

  /** Parsing the canonical text of a version gives the version back. */
  lemma ParseFormat(sv: SemVer)
    requires sv.major >= 0 && sv.minor >= 0 && sv.patch >= 0
    ensures ParseSemver(Format(sv)) == Ok(sv)
  {
    var f := Format(sv);
    FormatIsTrimmed(sv);
    ParseOfPlain(f);
    FormatSplits(sv);
    ParsePartsOfDigits(f, NatToString(sv.major), NatToString(sv.minor), NatToString(sv.patch));
  }

  /** The error message is the only thing the original input decides. */
  lemma ParsePartsIgnoresInput(x: string, v1: string, v2: string)
    ensures ParseParts(x, v1).Ok? <==> ParseParts(x, v2).Ok?
    ensures ParseParts(x, v1).Ok? ==> ParseParts(x, v1).value == ParseParts(x, v2).value
  {
  }

  lemma ParseSemverOfNonBlank(v: string)
    requires Strip(v) != []
    ensures ParseSemver(v) == ParseParts(Unprefixed(Strip(v)), v)
  {
  }

  lemma StripOfPrefixedBlank(pre: char, s: string)
    requires pre == 'v' || pre == 'V'
    requires IsBlank(s)
    ensures Strip([pre] + s) == [pre]
  {
    assert [pre] + s == [] + [pre] + s;
    StripOfPadded([], [pre], s);
  }

  lemma StripOfPrefixedText(pre: char, a: string, m: string, b: string)
    requires pre == 'v' || pre == 'V'
    requires IsBlank(a) && IsBlank(b) && m != [] && !IsSpace(m[0]) && !IsSpace(m[|m| - 1])
    ensures Strip([pre] + (a + m + b)) == [pre] + (a + m)
  {
    var x := [pre] + (a + m);
    assert [pre] + (a + m + b) == [] + x + b by {
      AppendAssoc([pre], a + m, b);
    }
    assert x[0] == pre && x[|x| - 1] == m[|m| - 1];
    StripOfPadded([], x, b);
  }

  lemma StripOfLeftPadded(a: string, m: string)
    requires IsBlank(a) && m != [] && !IsSpace(m[0]) && !IsSpace(m[|m| - 1])
    ensures Strip(a + m) == m
  {
    StripOfPadded(a, m, []);
    assert a + m + [] == a + m;
  }

  /** `strip()` of a prefixed text keeps the prefix, and the rest strips to
      what the unprefixed text strips to. */
  lemma StripOfPrefixed(pre: char, s: string)
    requires pre == 'v' || pre == 'V'
    ensures Strip([pre] + s) != [] && Unprefixed(Strip([pre] + s)) == Strip(s)
  {
    var a, b := StripPadding(s);
    var m := Strip(s);
    if m == [] {
      StripEmptyIff(s);
      StripOfPrefixedBlank(pre, s);
      assert [pre][1..] == [];
    } else {
      StripOfPrefixedText(pre, a, m, b);
      StripOfLeftPadded(a, m);
      assert ([pre] + (a + m))[1..] == a + m;
    }
  }

  /** An optional `v` / `V` in front of a version changes nothing but the
      error messages: `"v1.0.0"` and `"1.0.0"` parse to the same version. */
  lemma PrefixIgnored(pre: char, s: string)
    requires pre == 'v' || pre == 'V'
    requires Strip(s) == [] || (Strip(s)[0] != 'v' && Strip(s)[0] != 'V')
    ensures ParseSemver([pre] + s).Ok? <==> ParseSemver(s).Ok?
    ensures ParseSemver(s).Ok? ==> ParseSemver([pre] + s).value == ParseSemver(s).value
  {
    var t := Strip(s);
    var x, y := ParseSemver([pre] + s), ParseSemver(s);
    assert x == ParseParts(t, [pre] + s) by {
      StripOfPrefixed(pre, s);
      ParseSemverOfNonBlank([pre] + s);
    }
    if t == [] {
      assert Split(t, '.') == [""];
      assert x.Err? && y.Err?;
    } else {
      assert y == ParseParts(t, s) by {
        ParseSemverOfNonBlank(s);
      }
      ParsePartsIgnoresInput(t, [pre] + s, s);
    }
  }

  lemma PrefixedPlain(f: string, sv: SemVer)
    requires f != [] && IsDigit(f[0]) && Strip(f) == f && ParseSemver(f) == Ok(sv)
    ensures ParseSemver("v" + f) == Ok(sv) && ParseSemver("V" + f) == Ok(sv)
  {
    PrefixIgnored('v', f);
    PrefixIgnored('V', f);
    assert "v" + f == ['v'] + f && "V" + f == ['V'] + f;
  }

  /** With the prefix: `"v" + Format(sv)` also parses to `sv`. */
  lemma ParsePrefixedFormat(sv: SemVer)
    requires sv.major >= 0 && sv.minor >= 0 && sv.patch >= 0
    ensures ParseSemver("v" + Format(sv)) == Ok(sv)
    ensures ParseSemver("V" + Format(sv)) == Ok(sv)
  {
    ParseFormat(sv);
    FormatIsTrimmed(sv);
    PrefixedPlain(Format(sv), sv);
  }

  /** Numeric, not textual, order: 1.9.0 is older than 1.10.0. */
  lemma NumericNotTextual()
    ensures CompareVersions("1.9.0", "1.10.0") == Ok(-1)
  {
    assert NatToString(1) == "1" && NatToString(9) == "9" && NatToString(0) == "0";
    assert NatToString(10) == "10";
    assert Format(SemVer(1, 9, 0)) == "1.9.0";
    assert Format(SemVer(1, 10, 0)) == "1.10.0";
    ParseFormat(SemVer(1, 9, 0));
    ParseFormat(SemVer(1, 10, 0));
  }

  /** Splitting text made of dot-free pieces joined by dots. */
  lemma SplitDotted(parts: seq<string>)
    requires |parts| >= 1
    requires forall i :: 0 <= i < |parts| ==> '.' !in parts[i]
    ensures Split(Join(parts, '.'), '.') == parts
  {
    SplitJoin(parts, '.');
  }

  /** A stripped input with no prefix goes straight to its parts. */
  lemma ParseOfBare(v: string)
    requires v != [] && !IsSpace(v[0]) && !IsSpace(v[|v| - 1]) && v[0] != 'v' && v[0] != 'V'
    ensures ParseSemver(v) == ParseParts(v, v)
  {
    StripOfTrimmed(v);
  }

  /** Three parts that `int()` accepts, none negative, make the version. */
  lemma ThreeIntParts(v: string, w: string, a: string, b: string, c: string, x: int, y: int, z: int)
    requires Split(v, '.') == [a, b, c]
    requires ParseInt(a) == Some(x) && ParseInt(b) == Some(y) && ParseInt(c) == Some(z)
    requires x >= 0 && y >= 0 && z >= 0
    ensures ParseParts(v, w) == Ok(SemVer(x, y, z))
  {
    var parts := Split(v, '.');
    assert parts[0] == a && parts[1] == b && parts[2] == c;
    assert !(ParseInt(a).None? || ParseInt(b).None? || ParseInt(c).None?);
    assert !(x < 0 || y < 0 || z < 0);
  }

  /** A part that `int()` rejects makes the whole version invalid. */
  lemma NonIntPart(v: string, w: string, a: string, b: string, c: string)
    requires Split(v, '.') == [a, b, c]
    requires ParseInt(a).None? || ParseInt(b).None? || ParseInt(c).None?
    ensures ParseParts(v, w) == Err(Exc(ValueError, "invalid semver (not int): " + w))
  {
    var parts := Split(v, '.');
    assert parts[0] == a && parts[1] == b && parts[2] == c;
  }

  /** A part that ends in one of the separators U+001C-U+001F is not an
      integer for `int()`, although `strip()` would drop the separator:
      "1\x1c.0.0" is refused. */
  lemma SeparatorPartRejected(c: char)
    requires '\U{1C}' <= c <= '\U{1F}'
    ensures var v := "1" + [c] + ".0.0";
      ParseSemver(v) == Err(Exc(ValueError, "invalid semver (not int): " + v))
  {
    var a := "1" + [c];
    var v := a + ".0.0";
    assert v == "1" + [c] + ".0.0";
    assert '.' !in a;
    SplitThree(a, "0", "0");
    assert v == a + "." + "0" + "." + "0";
    assert v[0] == '1' && v[|v| - 1] == '0';
    StripOfTrimmed(v);
    ParseOfPlain(v);
    ParseIntRejectsSeparator("1", c);
    NonIntPart(v, v, a, "0", "0");
  }

  /** A part that `int()` converts to a negative number makes the whole
      version invalid. */
  lemma NegativePart(v: string, w: string, a: string, b: string, c: string, x: int, y: int, z: int)
    requires Split(v, '.') == [a, b, c]
    requires ParseInt(a) == Some(x) && ParseInt(b) == Some(y) && ParseInt(c) == Some(z)
    requires x < 0 || y < 0 || z < 0
    ensures ParseParts(v, w) == Err(Exc(ValueError, "invalid semver (negative): " + w))
  {
    var parts := Split(v, '.');
    assert parts[0] == a && parts[1] == b && parts[2] == c;
    assert !(ParseInt(a).None? || ParseInt(b).None? || ParseInt(c).None?);
  }

  /** `int("-0")`, `int("-00")`, ... are 0, so such a part is not negative
      and passes the check. */
  lemma {:induction false} MinusZeroIsZero(d: string)
    requires d != [] && forall i :: 0 <= i < |d| ==> d[i] == '0'
    ensures ParseInt("-" + d) == Some(0)
  {
    assert AllDigits(d) && DecimalValue(d) == 0 by {
      ZerosAreZero(d);
    }
    ParseIntOfNegativeDigits(d);
    var r := ParseInt("-" + d);
    assert r == Some(-(DecimalValue(d) as int));
    assert r.value == 0;
  }

  lemma {:induction false} ZerosAreZero(d: string)
    requires forall i :: 0 <= i < |d| ==> d[i] == '0'
    ensures AllDigits(d) && DecimalValue(d) == 0
  {
    if d != [] {
      ZerosAreZero(d[..|d| - 1]);
    }
  }

  /** Anything but exactly three `.`-separated parts is rejected, so `"1.0"`
      and `"1.0.0.0"` are. */
  lemma PartCountChecked(v: string)
    requires Strip(v) != [] && |Split(Unprefixed(Strip(v)), '.')| != 3
    ensures ParseSemver(v) == Err(Exc(ValueError, "invalid semver (expected x.y.z): " + v))
  {
  }
}
