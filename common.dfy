/** Text and number helpers shared by every module: the parts of Python's
    `str` and `int` that the launcher and the utilities rely on. */
module Common {

  datatype Option<+T> = None | Some(value: T)

  newtype byte = x: int | 0 <= x < 256

  /** The Python exception classes the modelled code raises or catches.
      `JsonDecode` is `json.JSONDecodeError` and `UnicodeDecode` is
      `UnicodeDecodeError`, both subclasses of `ValueError`; `Request` is
      `requests.RequestException`; `BadZipFile` is
      `zipfile.BadZipFile`. */
  datatype ExcKind =
    | FileNotFound | ValueError | TypeError | AttributeError | ImportError
    | OSError | JsonDecode | UnicodeDecode | Request | ZeroDivision | BadZipFile

  /** A raised exception: its class and `str(e)`. */
  datatype Exc = Exc(kind: ExcKind, msg: string)

  /** A value, or the exception raised instead of returning it. */
  datatype Result<+T> = Ok(value: T) | Err(error: Exc)
  {
    predicate IsFailure() { Err? }

    function PropagateFailure<U>(): Result<U>
      requires Err?
    {
      Err(error)
    }

    function Extract(): T
      requires Ok?
    {
      value
    }
  }

  /** `except ValueError` also catches `json.JSONDecodeError` and
      `UnicodeDecodeError`. */
  predicate IsValueError(k: ExcKind) {
    k == ValueError || k == JsonDecode || k == UnicodeDecode
  }

  // ---------------------------------------------------------------------------
  // Characters
  // ---------------------------------------------------------------------------

  /** The characters for which Python's `str.isspace()` holds; `strip()` with no
      argument and the regular expression `\s` both use this set. */
  predicate IsSpace(c: char) {
    c == ' ' || ('\t' <= c <= '\r') || ('\U{1C}' <= c <= '\U{1F}')
    || c == '\U{85}' || c == '\U{A0}' || c == '\U{1680}'
    || ('\U{2000}' <= c <= '\U{200A}') || c == '\U{2028}' || c == '\U{2029}'
    || c == '\U{202F}' || c == '\U{205F}' || c == '\U{3000}'
  }

  predicate IsDigit(c: char) {
    '0' <= c <= '9'
  }

  function DigitValue(c: char): (d: nat)
    requires IsDigit(c)
    ensures d < 10
  {
    (c as int) - ('0' as int)
  }

  function DigitChar(d: nat): (c: char)
    requires d < 10
    ensures IsDigit(c) && DigitValue(c) == d
  {
    (('0' as int) + d) as char
  }

  /** ASCII case mapping of `str.lower()` / `str.upper()`. */
  function LowerChar(c: char): char {
    if 'A' <= c <= 'Z' then ((c as int) + 32) as char else c
  }

  function UpperChar(c: char): char {
    if 'a' <= c <= 'z' then ((c as int) - 32) as char else c
  }

  function Lower(s: string): (r: string)
    ensures |r| == |s| && forall i :: 0 <= i < |s| ==> r[i] == LowerChar(s[i])
  {
    if s == [] then [] else [LowerChar(s[0])] + Lower(s[1..])
  }

  function Upper(s: string): (r: string)
    ensures |r| == |s| && forall i :: 0 <= i < |s| ==> r[i] == UpperChar(s[i])
  {
    if s == [] then [] else [UpperChar(s[0])] + Upper(s[1..])
  }

  // ---------------------------------------------------------------------------
  // strip / lstrip / rstrip
  // ---------------------------------------------------------------------------

  /** True when every character is whitespace, i.e. `not s.strip()`. */
  predicate IsBlank(s: string) {
    forall i :: 0 <= i < |s| ==> IsSpace(s[i])
  }

  /** `s.lstrip()`: drops the leading whitespace. */
  function LStrip(s: string): (r: string)
    ensures |r| <= |s| && r == s[|s| - |r|..]
    ensures forall i :: 0 <= i < |s| - |r| ==> IsSpace(s[i])
    ensures r == [] || !IsSpace(r[0])
  {
    if s != [] && IsSpace(s[0]) then LStrip(s[1..]) else s
  }

  /** `s.rstrip()`: drops the trailing whitespace. */
  function RStrip(s: string): (r: string)
    ensures |r| <= |s| && r == s[..|r|]
    ensures forall i :: |r| <= i < |s| ==> IsSpace(s[i])
    ensures r == [] || !IsSpace(r[|r| - 1])
  {
    if s != [] && IsSpace(s[|s| - 1]) then RStrip(s[..|s| - 1]) else s
  }

  /** `s.strip()`. */
  function Strip(s: string): (r: string)
    ensures |r| <= |s|
    ensures r == [] || (!IsSpace(r[0]) && !IsSpace(r[|r| - 1]))
  {
    RStrip(LStrip(s))
  }

  /** `s.lstrip(chars)` with an explicit set of characters. */
  function LStripAny(s: string, cs: set<char>): (r: string)
    ensures |r| <= |s| && r == s[|s| - |r|..]
    ensures forall i :: 0 <= i < |s| - |r| ==> s[i] in cs
    ensures r == [] || r[0] !in cs
  {
    if s != [] && s[0] in cs then LStripAny(s[1..], cs) else s
  }

  /** `s.rstrip(chars)` with an explicit set of characters. */
  function RStripAny(s: string, cs: set<char>): (r: string)
    ensures |r| <= |s| && r == s[..|r|]
    ensures forall i :: |r| <= i < |s| ==> s[i] in cs
    ensures r == [] || r[|r| - 1] !in cs
  {
    if s != [] && s[|s| - 1] in cs then RStripAny(s[..|s| - 1], cs) else s
  }

  lemma LStripOfBlank(s: string)
    requires IsBlank(s)
    ensures LStrip(s) == []
  {
  }

  /** `s.strip()` is empty exactly when `s` is all whitespace. */
  lemma StripEmptyIff(s: string)
    ensures Strip(s) == [] <==> IsBlank(s)
  {
    var l := LStrip(s);
    if Strip(s) == [] {
      assert l == [];
    }
  }

  /** A string with no whitespace at either end is its own `strip()`. */
  lemma StripOfTrimmed(s: string)
    requires s == [] || (!IsSpace(s[0]) && !IsSpace(s[|s| - 1]))
    ensures Strip(s) == s
  {
  }

  /** A nonempty string that is its own `strip()` has no whitespace at either end. */
  lemma TrimmedEnds(s: string)
    requires s != [] && Strip(s) == s
    ensures !IsSpace(s[0]) && !IsSpace(s[|s| - 1])
  {
    var r := Strip(s);
    assert r[0] == s[0] && r[|r| - 1] == s[|s| - 1];
  }

  lemma StripIdempotent(s: string)
    ensures Strip(Strip(s)) == Strip(s)
  {
    StripOfTrimmed(Strip(s));
  }

  lemma {:induction false} LStripBlankPrefix(a: string, x: string)
    requires IsBlank(a)
    ensures LStrip(a + x) == LStrip(x)
  {
    if a != [] {
      assert (a + x)[1..] == a[1..] + x;
      LStripBlankPrefix(a[1..], x);
    } else {
      assert a + x == x;
    }
  }

  lemma {:induction false} RStripBlankSuffix(x: string, b: string)
    requires IsBlank(b)
    ensures RStrip(x + b) == RStrip(x)
  {
    if b != [] {
      assert (x + b)[..|x + b| - 1] == x + b[..|b| - 1];
      RStripBlankSuffix(x, b[..|b| - 1]);
    } else {
      assert x + b == x;
    }
  }

  /** `strip()` of a text padded on both sides with whitespace is the text,
      provided the text itself has no whitespace at either end. */
  lemma StripOfPadded(a: string, m: string, b: string)
    requires IsBlank(a) && IsBlank(b)
    requires m == [] || (!IsSpace(m[0]) && !IsSpace(m[|m| - 1]))
    ensures Strip(a + m + b) == m
  {
    assert a + m + b == a + (m + b);
    LStripBlankPrefix(a, m + b);
    if m == [] {
      assert m + b == b;
      LStripOfBlank(b);
    } else {
      assert LStrip(m + b) == m + b;
      RStripBlankSuffix(m, b);
    }
  }

  /** What `lstrip()` drops is whitespace. */
  lemma LStripDropsBlank(s: string)
    ensures IsBlank(s[..|s| - |LStrip(s)|]) && s == s[..|s| - |LStrip(s)|] + LStrip(s)
  {
    var l := LStrip(s);
    var a := s[..|s| - |l|];
    forall i | 0 <= i < |a| ensures IsSpace(a[i]) {
      assert a[i] == s[i];
    }
    assert s == a + l by {
      assert l == s[|s| - |l|..];
    }
  }

  /** What `rstrip()` drops is whitespace. */
  lemma RStripDropsBlank(s: string)
    ensures IsBlank(s[|RStrip(s)|..]) && s == RStrip(s) + s[|RStrip(s)|..]
  {
    var b := s[|RStrip(s)|..];
    forall i | 0 <= i < |b| ensures IsSpace(b[i]) {
      assert b[i] == s[|RStrip(s)| + i];
    }
  }

  /** Every string is its `strip()` padded with whitespace. */
  lemma StripPadding(s: string) returns (a: string, b: string)
    ensures IsBlank(a) && IsBlank(b) && s == a + Strip(s) + b
  {
    var l := LStrip(s);
    LStripDropsBlank(s);
    RStripDropsBlank(l);
    var m := RStrip(l);
    a, b := s[..|s| - |l|], l[|m|..];
    assert Strip(s) == m;
    AppendAssoc(a, m, b);
  }

  /** `strip()` only removes characters: what is left comes from `s`. */
  lemma StripChars(s: string)
    ensures forall c :: c in Strip(s) ==> c in s
  {
    var l := LStrip(s);
    var r := RStrip(l);
    forall c | c in r ensures c in s {
      var i :| 0 <= i < |r| && r[i] == c;
      assert r[i] == l[i] == s[|s| - |l| + i];
    }
  }

  lemma AppendAssoc<T>(a: seq<T>, m: seq<T>, b: seq<T>)
    ensures a + (m + b) == a + m + b
  {
  }

  /** `strip()` around a character that is not whitespace only trims the outer
      ends. */
  lemma StripAround(a: string, m: string, b: string)
    requires m != [] && !IsSpace(m[0]) && !IsSpace(m[|m| - 1])
    ensures Strip(a + m + b) == LStrip(a) + m + RStrip(b)
  {
    var a1, a2 := a[..|a| - |LStrip(a)|], LStrip(a);
    var b1, b2 := RStrip(b), b[|RStrip(b)|..];
    assert IsBlank(a1) && a == a1 + a2 by {
      LStripDropsBlank(a);
    }
    assert IsBlank(b2) && b == b1 + b2 by {
      RStripDropsBlank(b);
    }
    assert a + m + b == a1 + (a2 + m + b1) + b2 by {
      Regroup(a1, a2, m, b1, b2);
    }
    StripOfPaddedParts(a1, a2, m, b1, b2);
  }

  lemma StripAroundChar(a: string, c: char, b: string)
    requires !IsSpace(c)
    ensures Strip(a + [c] + b) == LStrip(a) + [c] + RStrip(b)
  {
    StripAround(a, [c], b);
  }

  lemma StripOfPaddedParts(a1: string, a2: string, m: string, b1: string, b2: string)
    requires IsBlank(a1) && IsBlank(b2)
    requires a2 == [] || !IsSpace(a2[0])
    requires b1 == [] || !IsSpace(b1[|b1| - 1])
    requires m != [] && !IsSpace(m[0]) && !IsSpace(m[|m| - 1])
    ensures Strip(a1 + (a2 + m + b1) + b2) == a2 + m + b1
  {
    var mid := a2 + m + b1;
    assert !IsSpace(mid[0]) by {
      assert mid[0] == if a2 == [] then m[0] else a2[0];
    }
    assert !IsSpace(mid[|mid| - 1]) by {
      assert mid[|mid| - 1] == if b1 == [] then m[|m| - 1] else b1[|b1| - 1];
    }
    StripOfPadded(a1, mid, b2);
  }

  lemma Regroup<T>(a1: seq<T>, a2: seq<T>, m: seq<T>, b1: seq<T>, b2: seq<T>)
    ensures (a1 + a2) + m + (b1 + b2) == a1 + (a2 + m + b1) + b2
  {
  }

  // ---------------------------------------------------------------------------
  // Prefixes, suffixes, search, replace
  // ---------------------------------------------------------------------------

  predicate StartsWith(s: string, p: string) {
    |p| <= |s| && s[..|p|] == p
  }

  predicate EndsWith(s: string, p: string) {
    |p| <= |s| && s[|s| - |p|..] == p
  }

  /** Index of the first `c` in `s`, or -1 (`str.find`). */
  function IndexOf(s: string, c: char): (i: int)
    ensures -1 <= i < |s|
    ensures i == -1 <==> c !in s
    ensures i >= 0 ==> s[i] == c && c !in s[..i]
  {
    if s == [] then -1
    else if s[0] == c then 0
    else var j := IndexOf(s[1..], c);
      assert s[1..][..if j < 0 then 0 else j] == s[1..1 + (if j < 0 then 0 else j)];
      if j < 0 then -1 else j + 1
  }

  /** Index of the last `c` in `s`, or -1 (`str.rfind`). */
  function LastIndexOf(s: string, c: char): (i: int)
    ensures -1 <= i < |s|
    ensures i == -1 <==> (forall k :: 0 <= k < |s| ==> s[k] != c)
    ensures i >= 0 ==> s[i] == c && forall k :: i < k < |s| ==> s[k] != c
  {
    if s == [] then -1
    else if s[|s| - 1] == c then |s| - 1
    else LastIndexOf(s[..|s| - 1], c)
  }

  /** Every character in `cs` replaced by `b` (`str.replace` / `re.sub` of a
      character class by one character). */
  function ReplaceAny(s: string, cs: set<char>, b: char): (r: string)
    ensures |r| == |s|
    ensures forall i :: 0 <= i < |s| ==> r[i] == (if s[i] in cs then b else s[i])
  {
    if s == [] then [] else [if s[0] in cs then b else s[0]] + ReplaceAny(s[1..], cs, b)
  }

  /** After the replacement no character of `cs` is left, provided the
      replacement itself is not one of them. */
  lemma ReplaceAnyRemoves(s: string, cs: set<char>, b: char)
    requires b !in cs
    ensures forall c :: c in cs ==> c !in ReplaceAny(s, cs, b)
  {
    var r := ReplaceAny(s, cs, b);
    assert forall i :: 0 <= i < |r| ==> r[i] !in cs;
  }

  /** Replacing characters that do not occur changes nothing. */
  lemma ReplaceAnyAbsent(s: string, cs: set<char>, b: char)
    requires forall c :: c in cs ==> c !in s
    ensures ReplaceAny(s, cs, b) == s
  {
  }

  lemma ReplaceAnyCons(c: char, s: string, cs: set<char>, b: char)
    requires c !in cs
    ensures ReplaceAny([c] + s, cs, b) == [c] + ReplaceAny(s, cs, b)
  {
    assert ([c] + s)[1..] == s;
  }

  /** The replacement works character by character, so it distributes over
      concatenation. */
  lemma {:induction false} ReplaceAnyAppend(s: string, t: string, cs: set<char>, b: char)
    ensures ReplaceAny(s + t, cs, b) == ReplaceAny(s, cs, b) + ReplaceAny(t, cs, b)
  {
    if s == [] {
      assert s + t == t;
    } else {
      assert (s + t)[1..] == s[1..] + t;
      ReplaceAnyAppend(s[1..], t, cs, b);
    }
  }

  /** All characters not equal to `c` (`s.replace(c, "")`). */
  function RemoveChar(s: string, c: char): (r: string)
    ensures c !in r
    ensures |r| <= |s|
    ensures forall i :: 0 <= i < |r| ==> r[i] in s
    ensures c !in s ==> r == s
  {
    if s == [] then [] else (if s[0] == c then [] else [s[0]]) + RemoveChar(s[1..], c)
  }

  /** Removing works piece by piece: the other characters keep their order. */
  lemma {:induction false} RemoveCharAppend(a: string, b: string, c: char)
    ensures RemoveChar(a + b, c) == RemoveChar(a, c) + RemoveChar(b, c)
  {
    if a == [] {
      assert a + b == b;
    } else {
      assert (a + b)[1..] == a[1..] + b;
      RemoveCharAppend(a[1..], b, c);
    }
  }

  /** One character is dropped exactly when it is `c`. */
  lemma RemoveCharOfOne(d: char, c: char)
    ensures RemoveChar([d], c) == if d == c then [] else [d]
  {
  }

  // ---------------------------------------------------------------------------
  // split / join
  // ---------------------------------------------------------------------------

  /** `s.split(sep)` for a one-character separator: the pieces between the
      separators, empty pieces included, so there is always at least one. */
  function Split(s: string, sep: char): (parts: seq<string>)
    ensures |parts| >= 1
    ensures forall i :: 0 <= i < |parts| ==> sep !in parts[i]
  {
    if s == [] then [""]
    else
      var rest := Split(s[1..], sep);
      if s[0] == sep then [""] + rest else [[s[0]] + rest[0]] + rest[1..]
  }

  /** `sep.join(parts)`. */
  function Join(parts: seq<string>, sep: char): string
  {
    if parts == [] then ""
    else if |parts| == 1 then parts[0]
    else parts[0] + [sep] + Join(parts[1..], sep)
  }

  lemma {:induction false} JoinSplit(s: string, sep: char)
    ensures Join(Split(s, sep), sep) == s
  {
    if s != [] {
      JoinSplit(s[1..], sep);
      var rest := Split(s[1..], sep);
      if s[0] != sep {
        if |rest| == 1 {
        } else {
          assert [[s[0]] + rest[0]] + rest[1..] == [[s[0]] + rest[0]] + rest[1..];
          assert ([[s[0]] + rest[0]] + rest[1..])[1..] == rest[1..];
        }
      }
    }
  }

  /** Splitting undoes joining when no piece contains the separator. */
  lemma {:induction false} SplitJoin(parts: seq<string>, sep: char)
    requires |parts| >= 1
    requires forall i :: 0 <= i < |parts| ==> sep !in parts[i]
    ensures Split(Join(parts, sep), sep) == parts
  {
    if |parts| == 1 {
      SplitNoSep(parts[0], sep);
    } else {
      SplitJoin(parts[1..], sep);
      SplitPrefix(parts[0], Join(parts[1..], sep), sep);
    }
  }

  lemma {:induction false} SplitNoSep(s: string, sep: char)
    requires sep !in s
    ensures Split(s, sep) == [s]
  {
    if s != [] {
      SplitNoSep(s[1..], sep);
      assert [s[0]] + s[1..] == s;
    }
  }

  /** Splitting `a + sep + b` gives the pieces of `a`, then those of `b`. */
  lemma {:induction false} SplitAppend(a: string, b: string, sep: char)
    ensures Split(a + [sep] + b, sep) == Split(a, sep) + Split(b, sep)
  {
    if a == [] {
      assert a + [sep] + b == [sep] + b;
      assert ([sep] + b)[1..] == b;
    } else {
      assert (a + [sep] + b)[1..] == a[1..] + [sep] + b;
      SplitAppend(a[1..], b, sep);
    }
  }

  /** Splitting `a + sep + b` where `a` holds no separator. */
  lemma {:induction false} SplitPrefix(a: string, b: string, sep: char)
    requires sep !in a
    ensures Split(a + [sep] + b, sep) == [a] + Split(b, sep)
  {
    if a == [] {
      assert a + [sep] + b == [sep] + b;
      assert ([sep] + b)[1..] == b;
    } else {
      SplitPrefix(a[1..], b, sep);
      assert (a + [sep] + b)[1..] == a[1..] + [sep] + b;
      assert [a[0]] + a[1..] == a;
    }
  }

  /** `s.split(sep, 1)`: the text before the first separator and the text
      after it, or None when `sep` does not occur. */
  function SplitOnce(s: string, sep: char): (r: Option<(string, string)>)
    ensures r.None? <==> sep !in s
    ensures r.Some? ==> sep !in r.value.0 && s == r.value.0 + [sep] + r.value.1
  {
    var i := IndexOf(s, sep);
    if i < 0 then None else Some((s[..i], s[i + 1..]))
  }

  // ---------------------------------------------------------------------------
  // repr() of a str
  // ---------------------------------------------------------------------------

  /** A lower-case hexadecimal digit. */
  function HexDigit(d: nat): char
    requires d < 16
  {
    if d < 10 then ('0' as int + d) as char else ('a' as int + d - 10) as char
  }

  /** How `repr` writes one character of a literal quoted with `q`: the
      backslash and the quote get a backslash, tab, newline and carriage return
      their letter escapes, and the other ASCII control characters `\xhh`. */
  function EscapeChar(c: char, q: char): string {
    if c == '\\' then "\\\\"
    else if c == q then ['\\', q]
    else if c == '\t' then "\\t"
    else if c == '\n' then "\\n"
    else if c == '\r' then "\\r"
    else if c as int < 32 || c as int == 127 then
      ['\\', 'x', HexDigit(c as int / 16), HexDigit(c as int % 16)]
    else [c]
  }

  function EscapeText(s: string, q: char): string {
    if s == [] then "" else EscapeChar(s[0], q) + EscapeText(s[1..], q)
  }

  /** The quote `repr` chooses: `"` for text holding `'` but no `"`, else `'`. */
  function ReprQuote(s: string): char {
    if '\'' in s && '"' !in s then '"' else '\''
  }

  /** `repr(s)` of a `str`. */
  function StrRepr(s: string): (r: string)
    ensures |r| >= 2 && r[0] == r[|r| - 1] == ReprQuote(s)
  {
    var q := ReprQuote(s);
    [q] + EscapeText(s, q) + [q]
  }

  /** Text without a quote, a backslash or a control character is written
      between single quotes as it is. */
  lemma {:induction false} StrReprOfPlain(s: string)
    requires forall i :: 0 <= i < |s| ==> s[i] !in {'\'', '"', '\\'} && 32 <= s[i] as int != 127
    ensures StrRepr(s) == "'" + s + "'"
  {
    EscapeOfPlain(s);
  }

  lemma {:induction false} EscapeOfPlain(s: string)
    requires forall i :: 0 <= i < |s| ==> s[i] !in {'\'', '"', '\\'} && 32 <= s[i] as int != 127
    ensures EscapeText(s, '\'') == s
  {
    if s != [] {
      EscapeOfPlain(s[1..]);
      assert [s[0]] + s[1..] == s;
    }
  }

  /** Each backslash is doubled: a Windows path shows as `'C:\\a'`. */
  lemma {:induction false} StrReprDoublesBackslash(a: string, b: string)
    requires forall i :: 0 <= i < |a| ==> a[i] !in {'\'', '"', '\\'} && 32 <= a[i] as int != 127
    requires forall i :: 0 <= i < |b| ==> b[i] !in {'\'', '"', '\\'} && 32 <= b[i] as int != 127
    ensures StrRepr(a + "\\" + b) == "'" + a + "\\\\" + b + "'"
  {
    var s := a + "\\" + b;
    assert ReprQuote(s) == '\'' by {
      assert forall i :: 0 <= i < |s| ==> s[i] != '\'' by {
        forall i | 0 <= i < |s| ensures s[i] != '\'' {
          if i > |a| { assert s[i] == b[i - |a| - 1]; }
        }
      }
    }
    var t := "\\" + b;
    assert s == a + t;
    assert EscapeText(s, '\'') == EscapeText(a, '\'') + EscapeText(t, '\'') by {
      EscapeAppend(a, t, '\'');
    }
    assert EscapeText(a, '\'') == a by {
      EscapeOfPlain(a);
    }
    assert EscapeText(t, '\'') == "\\\\" + b by {
      assert t[0] == '\\' && t[1..] == b;
      EscapeOfPlain(b);
    }
  }

  lemma {:induction false} EscapeAppend(s: string, t: string, q: char)
    ensures EscapeText(s + t, q) == EscapeText(s, q) + EscapeText(t, q)
  {
    if s != [] {
      assert (s + t)[1..] == s[1..] + t;
      EscapeAppend(s[1..], t, q);
    } else {
      assert s + t == t;
    }
  }

  // ---------------------------------------------------------------------------
  // Decimal numbers
  // ---------------------------------------------------------------------------

  predicate AllDigits(s: string) {
    forall i :: 0 <= i < |s| ==> IsDigit(s[i])
  }

  /** The value of a string of decimal digits (0 for the empty string). */
  function DecimalValue(s: string): (n: nat)
    requires AllDigits(s)
  {
    if s == [] then 0 else DecimalValue(s[..|s| - 1]) * 10 + DigitValue(s[|s| - 1])
  }

  /** The decimal digits of a natural number, without leading zeroes. */
  function NatToString(n: nat): (s: string)
    ensures |s| >= 1 && AllDigits(s)
    ensures DecimalValue(s) == n
    ensures |s| > 1 ==> s[0] != '0'
  {
    if n < 10 then [DigitChar(n)]
    else
      var s := NatToString(n / 10) + [DigitChar(n % 10)];
      assert s[..|s| - 1] == NatToString(n / 10);
      s
  }

  /** Python's `str(n)` for an integer. */
  function IntToString(n: int): (s: string)
    ensures |s| >= 1 && !IsSpace(s[|s| - 1])
    ensures forall c :: c in s ==> c == '-' || IsDigit(c)
  {
    var d := NatToString(if n < 0 then -n else n);
    assert forall c :: c in d ==> IsDigit(c);
    if n < 0 then "-" + d else d
  }

  /** The body of a decimal literal as Python's `int()` accepts it: digits,
      with single underscores allowed between two digits. */
  predicate DigitGroups(t: string) {
    && t != [] && IsDigit(t[0]) && IsDigit(t[|t| - 1])
    && (forall i :: 0 <= i < |t| ==> IsDigit(t[i]) || t[i] == '_')
    && (forall i :: 0 <= i < |t| - 1 ==> t[i] == '_' ==> t[i + 1] != '_')
  }

  /** The whitespace `int()` skips around its argument: the ASCII characters
      0x09-0x0D and the space, and every non-ASCII character for which
      `str.isspace()` holds. The separators U+001C-U+001F, which
      `str.isspace()` and `strip()` count as whitespace, are not skipped. */
  predicate IsIntSpace(c: char) {
    IsSpace(c) && !('\U{1C}' <= c <= '\U{1F}')
  }

  /** `s` without the whitespace `int()` skips at either end. */
  function IntStrip(s: string): (r: string)
    ensures |r| <= |s|
    ensures r == [] || (!IsIntSpace(r[0]) && !IsIntSpace(r[|r| - 1]))
    ensures forall c :: c in r ==> c in s
  {
    if s != [] && IsIntSpace(s[0]) then IntStrip(s[1..])
    else if s != [] && IsIntSpace(s[|s| - 1]) then IntStrip(s[..|s| - 1])
    else s
  }

  lemma IntStripOfTrimmed(s: string)
    requires s == [] || (!IsIntSpace(s[0]) && !IsIntSpace(s[|s| - 1]))
    ensures IntStrip(s) == s
  {
  }

  /** Python's `int(s)` for a `str` argument in base 10: the whitespace of
      `IsIntSpace` around it is ignored, one optional sign, leading zeroes are
      accepted; None stands for the ValueError. */
  function ParseInt(s: string): (r: Option<int>)
    ensures r.Some? ==> Strip(s) != []
  {
    var t := IntStrip(s);
    var r := ParseTrimmed(t);
    if r.Some? then
      assert !IsBlank(s) by {
        assert t[|t| - 1] in t;
        var i :| 0 <= i < |s| && s[i] == t[|t| - 1];
      }
      StripEmptyIff(s);
      r
    else r
  }

  /** `int()` of text with no surrounding whitespace left: one optional sign
      followed by digit groups. */
  function ParseTrimmed(t: string): (r: Option<int>)
    ensures r.Some? ==> t != [] && IsDigit(t[|t| - 1])
  {
    if t == [] then None
    else
      var neg := t[0] == '-';
      var body := if t[0] == '-' || t[0] == '+' then t[1..] else t;
      if !DigitGroups(body) then None
      else
        var digits := RemoveChar(body, '_');
        assert AllDigits(digits) by {
          forall i | 0 <= i < |digits| ensures IsDigit(digits[i]) {
            assert digits[i] in body;
          }
        }
        var v: int := DecimalValue(digits);
        Some(if neg then -v else v)
  }

  /** `int()` ignores exactly its own whitespace around the text: padding made
      of it changes nothing. */
  lemma ParseIntOfPadded(a: string, t: string, b: string)
    requires forall i :: 0 <= i < |a| ==> IsIntSpace(a[i])
    requires forall i :: 0 <= i < |b| ==> IsIntSpace(b[i])
    ensures ParseInt(a + t + b) == ParseInt(t)
  {
    IntStripOfPadded(a, t, b);
  }

  lemma IntStripOfPadded(a: string, t: string, b: string)
    requires forall i :: 0 <= i < |a| ==> IsIntSpace(a[i])
    requires forall i :: 0 <= i < |b| ==> IsIntSpace(b[i])
    ensures IntStrip(a + t + b) == IntStrip(t)
  {
    assert a + t + b == a + (t + b);
    IntStripDropsFront(a, t + b);
    IntStripDropsBack(t, b);
  }

  lemma {:induction false} IntStripDropsFront(a: string, x: string)
    requires forall i :: 0 <= i < |a| ==> IsIntSpace(a[i])
    ensures IntStrip(a + x) == IntStrip(x)
    decreases |a|
  {
    if a != [] {
      var s := a + x;
      assert s[0] == a[0] && s[1..] == a[1..] + x;
      IntStripDropsFront(a[1..], x);
    } else {
      assert a + x == x;
    }
  }

  lemma {:induction false} IntStripDropsBack(x: string, b: string)
    requires forall i :: 0 <= i < |b| ==> IsIntSpace(b[i])
    ensures IntStrip(x + b) == IntStrip(x)
    decreases |x| + |b|
  {
    var s := x + b;
    if b == [] {
      assert s == x;
    } else if x != [] && IsIntSpace(x[0]) {
      assert s[0] == x[0] && s[1..] == x[1..] + b;
      IntStripDropsBack(x[1..], b);
    } else if x == [] {
      assert s == b && s[1..] == [] + b[1..];
      IntStripDropsBack([], b[1..]);
    } else {
      assert s[0] == x[0] && s[|s| - 1] == b[|b| - 1];
      assert s[..|s| - 1] == x + b[..|b| - 1];
      IntStripDropsBack(x, b[..|b| - 1]);
    }
  }

  /** The separators U+001C-U+001F count as whitespace for `strip()` but not
      for `int()`: at either end of the text they make `int()` fail. */
  lemma ParseIntRejectsSeparator(s: string, c: char)
    requires '\U{1C}' <= c <= '\U{1F}'
    ensures ParseInt(s + [c]) == None
    ensures ParseInt([c] + s) == None
  {
    IntStripKeepsLast(s, c);
    IntStripKeepsFirst(c, s);
  }

  lemma {:induction false} IntStripKeepsLast(s: string, c: char)
    requires !IsIntSpace(c)
    ensures var r := IntStrip(s + [c]); r != [] && r[|r| - 1] == c
    decreases |s|
  {
    var x := s + [c];
    if s != [] && IsIntSpace(s[0]) {
      assert x[0] == s[0] && x[1..] == s[1..] + [c];
      IntStripKeepsLast(s[1..], c);
    } else {
      assert x[|x| - 1] == c;
      assert x == [] || !IsIntSpace(x[0]);
      IntStripOfTrimmed(x);
    }
  }

  lemma {:induction false} IntStripKeepsFirst(c: char, s: string)
    requires !IsIntSpace(c)
    ensures var r := IntStrip([c] + s); r != [] && r[0] == c
    decreases |s|
  {
    var x := [c] + s;
    assert x[0] == c;
    if s != [] && IsIntSpace(s[|s| - 1]) {
      assert x[|x| - 1] == s[|s| - 1] && x[..|x| - 1] == [c] + s[..|s| - 1];
      IntStripKeepsFirst(c, s[..|s| - 1]);
    } else {
      IntStripOfTrimmed(x);
    }
  }

  lemma {:induction false} AllDigitsHasNoSpace(s: string)
    requires AllDigits(s)
    ensures forall i :: 0 <= i < |s| ==> !IsSpace(s[i])
  {
  }

  lemma {:induction false} RemoveAbsent(s: string, c: char)
    requires forall i :: 0 <= i < |s| ==> s[i] != c
    ensures RemoveChar(s, c) == s
  {
    if s != [] {
      RemoveAbsent(s[1..], c);
      assert [s[0]] + s[1..] == s;
    }
  }

  /** A digit string is a valid `int()` body and denotes its decimal value. */
  lemma DigitsAreDigitGroups(d: string)
    requires d != [] && AllDigits(d)
    ensures DigitGroups(d)
    ensures RemoveChar(d, '_') == d
  {
    RemoveAbsent(d, '_');
  }

  lemma DigitIsNotSpace(c: char)
    requires IsDigit(c)
    ensures !IsSpace(c)
  {
  }

  /** `int()` of a digit string is its value. */
  lemma ParseIntOfDigits(d: string)
    requires d != [] && AllDigits(d)
    ensures ParseInt(d) == Some(DecimalValue(d) as int)
  {
    DigitsAreDigitGroups(d);
    DigitIsNotSpace(d[0]);
    DigitIsNotSpace(d[|d| - 1]);
    IntStripOfTrimmed(d);
    assert d[0] != '-' && d[0] != '+';
    assert ParseTrimmed(d) == Some(DecimalValue(RemoveChar(d, '_')) as int);
  }

  /** `int()` of a minus sign followed by a digit string is minus its value. */
  lemma ParseIntOfNegativeDigits(d: string)
    requires d != [] && AllDigits(d)
    ensures ParseInt("-" + d) == Some(-(DecimalValue(d) as int))
  {
    DigitsAreDigitGroups(d);
    var m := "-" + d;
    assert m[1..] == d && m[0] == '-' && m[|m| - 1] == d[|d| - 1];
    DigitIsNotSpace(d[|d| - 1]);
    IntStripOfTrimmed(m);
  }

  /** `int(str(n)) == n` for every integer. */
  lemma ParseIntOfIntToString(n: int)
    ensures ParseInt(IntToString(n)) == Some(n)
  {
    if n < 0 {
      ParseIntOfNegativeDigits(NatToString(-n));
    } else {
      ParseIntOfDigits(NatToString(n));
    }
  }

  // ---------------------------------------------------------------------------
  // Runs of digits (the regular expression \d+ applied with findall)
  // ---------------------------------------------------------------------------

  /** Length of the run of digits at the start of `s`. */
  function DigitRunLength(s: string): (n: nat)
    ensures n <= |s|
    ensures AllDigits(s[..n])
    ensures n < |s| ==> !IsDigit(s[n])
  {
    if s == [] || !IsDigit(s[0]) then 0
    else
      var k := DigitRunLength(s[1..]);
      assert s[..k + 1] == [s[0]] + s[1..][..k];
      k + 1
  }

  /** `re.findall(r"\d+", s)`: the maximal runs of digits, left to right. */
  function DigitRuns(s: string): (runs: seq<string>)
    ensures forall i :: 0 <= i < |runs| ==> runs[i] != [] && AllDigits(runs[i])
    decreases |s|
  {
    if s == [] then []
    else if !IsDigit(s[0]) then DigitRuns(s[1..])
    else
      var n := DigitRunLength(s);
      [s[..n]] + DigitRuns(s[n..])
  }

  /** The digits of `s`, in order. */
  function DigitsOf(s: string): (d: string)
    ensures AllDigits(d)
  {
    if s == [] then [] else (if IsDigit(s[0]) then [s[0]] else []) + DigitsOf(s[1..])
  }

  function Concat(runs: seq<string>): string {
    if runs == [] then [] else runs[0] + Concat(runs[1..])
  }

  lemma {:induction false} DigitsOfAppend(a: string, b: string)
    ensures DigitsOf(a + b) == DigitsOf(a) + DigitsOf(b)
  {
    if a != [] {
      DigitsOfAppend(a[1..], b);
      assert (a + b)[1..] == a[1..] + b;
    } else {
      assert a + b == b;
    }
  }

  lemma {:induction false} DigitsOfAllDigits(s: string)
    requires AllDigits(s)
    ensures DigitsOf(s) == s
  {
    if s != [] {
      DigitsOfAllDigits(s[1..]);
    }
  }

  /** Joining the runs that findall returns gives back every digit of the
      input, in order. */
  lemma {:induction false} ConcatDigitRuns(s: string)
    ensures Concat(DigitRuns(s)) == DigitsOf(s)
    decreases |s|
  {
    if s != [] {
      if !IsDigit(s[0]) {
        ConcatDigitRuns(s[1..]);
      } else {
        var n := DigitRunLength(s);
        ConcatDigitRuns(s[n..]);
        assert s == s[..n] + s[n..];
        DigitsOfAppend(s[..n], s[n..]);
        DigitsOfAllDigits(s[..n]);
      }
    }
  }

  lemma {:induction false} ConcatAllDigits(runs: seq<string>)
    requires forall i :: 0 <= i < |runs| ==> AllDigits(runs[i])
    ensures AllDigits(Concat(runs))
  {
    if runs != [] {
      ConcatAllDigits(runs[1..]);
    }
  }
}
