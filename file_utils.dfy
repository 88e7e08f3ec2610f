/** The two pure helpers of `src/utils/file_utils.py`: `safe_name`, which
    turns any value into a file name, and `guess_ext`, which picks an image
    extension from a URL. */
module FileUtils {
  import opened Common
  import opened JsonValue

  // ---------------------------------------------------------------------------
  // safe_name
  // ---------------------------------------------------------------------------

  /** The characters `safe_name` replaces with `_`: `\ / : * ? " < > |`. */
  const Unsafe: set<char> := {'\\', '/', ':', '*', '?', '"', '<', '>', '|'}

  /** `re.sub(r"\s+", "_", s)`: each maximal run of whitespace becomes one
      `_`, written where the run ends. */
  function CollapseSpaces(s: string): string {
    if s == [] then []
    else if !IsSpace(s[0]) then [s[0]] + CollapseSpaces(s[1..])
    else if |s| > 1 && IsSpace(s[1]) then CollapseSpaces(s[1..])
    else "_" + CollapseSpaces(s[1..])
  }

  /** The result holds no whitespace, and every other character comes from `s`. */
  lemma {:induction false} CollapseSpacesClean(s: string)
    ensures forall c :: c in CollapseSpaces(s) ==> !IsSpace(c) && (c == '_' || c in s)
  {
    if s != [] {
      var rest := s[1..];
      var head := if !IsSpace(s[0]) then [s[0]] else if |s| > 1 && IsSpace(s[1]) then [] else "_";
      CollapseSpacesClean(rest);
      assert CollapseSpaces(s) == head + CollapseSpaces(rest);
      forall c | c in head + CollapseSpaces(rest)
        ensures !IsSpace(c) && (c == '_' || c in s)
      {
        if c !in head {
          assert c in CollapseSpaces(rest);
          assert c in rest ==> c in s;
        }
      }
    }
  }

  /** Text without whitespace is left alone. */
  lemma {:induction false} CollapseSpacesOfSpaceFree(s: string)
    requires forall c :: c in s ==> !IsSpace(c)
    ensures CollapseSpaces(s) == s
  {
    if s != [] {
      CollapseSpacesOfSpaceFree(s[1..]);
      assert [s[0]] + s[1..] == s;
    }
  }

  /** `s[:n]` in Python: a negative `n` counts from the end. */
  function PrefixTo(s: string, n: int): (r: string)
    ensures |r| <= |s| && r == s[..|r|]
    ensures n >= 0 ==> |r| == if n < |s| then n else |s|
    ensures n < 0 ==> |r| == if |s| + n > 0 then |s| + n else 0
  {
    if n >= 0 then (if n < |s| then s[..n] else s)
    else if |s| + n > 0 then s[..|s| + n] else []
  }

  /** `s` trimmed, with the unsafe characters and the whitespace runs
      replaced. */
  function CleanText(s: string): (t: string)
    ensures forall c :: c in t ==> c !in Unsafe && !IsSpace(c)
  {
    var s3 := ReplaceAny(Strip(s), Unsafe, '_');
    ReplaceAnyRemoves(Strip(s), Unsafe, '_');
    CollapseSpacesClean(s3);
    CollapseSpaces(s3)
  }

  /** The name before the length limit: `CleanText` of `str(s)`, or of `""`
      for `None`. */
  function SafeText(s: Json): (t: string)
    ensures forall c :: c in t ==> c !in Unsafe && !IsSpace(c)
    ensures s.JNull? ==> t == []
    ensures !s.JNull? ==> t == CleanText(PyStr(s))
  {
    CleanText(if s.JNull? then "" else PyStr(s))
  }

  /** The length limit and the fallback applied to a cleaned text `t`: cut
      to `max_len` characters when `max_len` is non-zero and `t` is longer,
      or `"noname"` when that leaves nothing. */
  function LimitName(t: string, maxLen: int): (r: string)
    ensures r != []
    ensures forall c :: c in r ==> c in t || c in "noname"
    ensures r == "noname" || StartsWith(t, r)
    ensures maxLen > 0 && r != "noname" ==> |r| == if |t| < maxLen then |t| else maxLen
    ensures maxLen == 0 && t != [] ==> r == t
    ensures t == [] ==> r == "noname"
    ensures maxLen >= 6 ==> |r| <= maxLen
  {
    var cut := if maxLen != 0 && |t| > maxLen then PrefixTo(t, maxLen) else t;
    assert forall c :: c in cut ==> c in t;
    if cut == [] then "noname" else cut
  }

  /** `safe_name(s, max_len)`: `SafeText(s)` under the length limit, with
      `"noname"` for an empty result. */
  function SafeName(s: Json, maxLen: int): (r: string)
    ensures r != []
    ensures forall c :: c in r ==> c !in Unsafe && !IsSpace(c)
    ensures r == "noname" || StartsWith(SafeText(s), r)
    ensures maxLen > 0 && r != "noname" ==> |r| == if |SafeText(s)| < maxLen then |SafeText(s)| else maxLen
    ensures maxLen == 0 && SafeText(s) != [] ==> r == SafeText(s)
    ensures SafeText(s) == [] ==> r == "noname"
    ensures maxLen >= 6 ==> |r| <= maxLen
  {
    var t := SafeText(s);
    var r := LimitName(t, maxLen);
    NoNameClean();
    r
  }

  /** The fallback name holds neither an unsafe character nor whitespace. */
  lemma NoNameClean()
    ensures forall c :: c in "noname" ==> c !in Unsafe && !IsSpace(c)
  {
    forall c | c in "noname" ensures c !in Unsafe && !IsSpace(c) {
      assert c in {'n', 'o', 'a', 'm', 'e'};
    }
  }

  /** A name `safe_name` produced comes back unchanged, provided the limit is
      0 or at least the length of `"noname"`; with a limit of 3 the fallback
      `"noname"` would itself be cut to `"non"`. */
  lemma SafeNameIdempotent(s: Json, maxLen: int)
    requires maxLen == 0 || maxLen >= 6
    ensures SafeName(JString(SafeName(s, maxLen)), maxLen) == SafeName(s, maxLen)
  {
    var r := SafeName(s, maxLen);
    SafeTextOfClean(r);
    SafeNameOfFixedText(r, maxLen);
  }

  /** A text with no whitespace and no unsafe character is its own `SafeText`. */
  lemma SafeTextOfClean(r: string)
    requires forall c :: c in r ==> c !in Unsafe && !IsSpace(c)
    ensures SafeText(JString(r)) == r
  {
    assert PyStr(JString(r)) == r;
    CleanTextOfClean(r);
  }

  /** ... and its own `CleanText`. */
  lemma CleanTextOfClean(r: string)
    requires forall c :: c in r ==> c !in Unsafe && !IsSpace(c)
    ensures CleanText(r) == r
  {
    assert Strip(r) == r by {
      StripOfTrimmed(r);
    }
    assert ReplaceAny(r, Unsafe, '_') == r by {
      ReplaceAnyAbsent(r, Unsafe, '_');
    }
    CollapseSpacesOfSpaceFree(r);
  }

  /** Each unsafe character is written as `_`, wherever it stands. */
  lemma CleanTextOfUnsafe(a: string, c: char, b: string)
    requires c in Unsafe
    ensures CleanText(a + [c] + b) == CleanText(a + "_" + b)
  {
    var la, rb := LStrip(a), RStrip(b);
    UnsafeCharNotSpace(c);
    StripAroundSwap(a, c, b);
    CleanTextOfStripped(a + [c] + b, la + [c] + rb);
    CleanTextOfStripped(a + "_" + b, la + "_" + rb);
    ReplaceOfUnsafe(la, c, rb);
  }

  lemma StripAroundSwap(a: string, c: char, b: string)
    requires !IsSpace(c)
    ensures Strip(a + [c] + b) == LStrip(a) + [c] + RStrip(b)
    ensures Strip(a + "_" + b) == LStrip(a) + "_" + RStrip(b)
  {
    StripAroundChar(a, c, b);
    StripAroundChar(a, '_', b);
  }

  lemma UnsafeCharNotSpace(c: char)
    requires c in Unsafe
    ensures !IsSpace(c)
  {
  }

  lemma CleanTextOfStripped(s: string, m: string)
    requires Strip(s) == m
    ensures CleanText(s) == CollapseSpaces(ReplaceAny(m, Unsafe, '_'))
  {
  }

  /** An unsafe character and `_` are replaced alike. */
  lemma ReplaceOfUnsafe(p: string, c: char, q: string)
    requires c in Unsafe
    ensures ReplaceAny(p + [c] + q, Unsafe, '_') == ReplaceAny(p + "_" + q, Unsafe, '_')
  {
    ReplaceAnyAppend(p + [c], q, Unsafe, '_');
    ReplaceAnyAppend(p, [c], Unsafe, '_');
    ReplaceAnyAppend(p + "_", q, Unsafe, '_');
    ReplaceAnyAppend(p, "_", Unsafe, '_');
  }

  /** A run of whitespace between two other characters becomes one `_`, and
      the text on either side is cleaned on its own. */
  lemma CleanTextOfRun(a: string, w: string, b: string)
    requires a != [] && !IsSpace(a[|a| - 1])
    requires w != [] && IsBlank(w)
    requires b != [] && !IsSpace(b[0])
    ensures CleanText(a + w + b) == CleanText(a) + "_" + CleanText(b)
  {
    var a1, la := a[..|a| - |LStrip(a)|], LStrip(a);
    var rb, b2 := RStrip(b), b[|RStrip(b)|..];
    assert IsBlank(a1) && a == a1 + la by {
      LStripDropsBlank(a);
    }
    assert IsBlank(b2) && b == rb + b2 by {
      RStripDropsBlank(b);
    }
    assert la != [] && !IsSpace(la[|la| - 1]) by {
      assert !IsSpace(a[|a| - 1]);
      assert la[|la| - 1] == a[|a| - 1];
    }
    assert rb != [] && !IsSpace(rb[0]) by {
      assert !IsSpace(b[0]);
      assert rb[0] == b[0];
    }
    assert Strip(a + w + b) == la + w + rb by {
      StripOfRun(a1, la, w, rb, b2);
    }
    StripOfEnds(a1, la, rb, b2);
    CollapseReplaced(la, w, rb);
  }

  /** The replacement and the collapse of a stripped text with a run of
      whitespace inside. */
  lemma CollapseReplaced(la: string, w: string, rb: string)
    requires la != [] && !IsSpace(la[|la| - 1])
    requires w != [] && IsBlank(w)
    requires rb != [] && !IsSpace(rb[0])
    ensures CollapseSpaces(ReplaceAny(la + w + rb, Unsafe, '_'))
      == CollapseSpaces(ReplaceAny(la, Unsafe, '_')) + "_" + CollapseSpaces(ReplaceAny(rb, Unsafe, '_'))
  {
    var x, y := ReplaceAny(la, Unsafe, '_'), ReplaceAny(rb, Unsafe, '_');
    assert ReplaceAny(la + w + rb, Unsafe, '_') == x + w + y by {
      ReplaceAnyAppend(la + w, rb, Unsafe, '_');
      ReplaceAnyAppend(la, w, Unsafe, '_');
      UnsafeNotSpace();
      ReplaceAnyAbsent(w, Unsafe, '_');
    }
    assert !IsSpace(x[|x| - 1]) by {
      assert x[|x| - 1] == if la[|la| - 1] in Unsafe then '_' else la[|la| - 1];
    }
    assert !IsSpace(y[0]) by {
      assert y[0] == if rb[0] in Unsafe then '_' else rb[0];
    }
    CollapseRun(x, w, y);
  }

  /** Whitespace on both sides of the text is dropped first. */
  lemma CleanTextOfPadded(a: string, m: string, b: string)
    requires IsBlank(a) && IsBlank(b)
    ensures CleanText(a + m + b) == CleanText(m)
  {
    var p, q := StripPadding(m);
    var sm := Strip(m);
    assert IsBlank(a + p) && IsBlank(q + b);
    assert a + m + b == (a + p) + sm + (q + b) by {
      Regroup(a, p, sm, q, b);
    }
    StripOfPadded(a + p, sm, q + b);
  }

  /** No unsafe character is whitespace. */
  lemma UnsafeNotSpace()
    ensures forall c :: c in Unsafe ==> !IsSpace(c)
  {
  }

  lemma StripOfEnds(a1: string, la: string, rb: string, b2: string)
    requires IsBlank(a1) && IsBlank(b2)
    requires la != [] && !IsSpace(la[0]) && !IsSpace(la[|la| - 1])
    requires rb != [] && !IsSpace(rb[0]) && !IsSpace(rb[|rb| - 1])
    ensures Strip(a1 + la) == la && Strip(rb + b2) == rb
  {
    StripOfPadded(a1, la, []);
    assert a1 + la + [] == a1 + la;
    StripOfPadded([], rb, b2);
    assert [] + rb + b2 == rb + b2;
  }

  lemma StripOfRun(a1: string, la: string, w: string, rb: string, b2: string)
    requires IsBlank(a1) && IsBlank(b2)
    requires la != [] && !IsSpace(la[0]) && rb != [] && !IsSpace(rb[|rb| - 1])
    ensures Strip(a1 + la + w + (rb + b2)) == la + w + rb
  {
    var mid := la + w + rb;
    assert mid[0] == la[0] && mid[|mid| - 1] == rb[|rb| - 1];
    assert a1 + la + w + (rb + b2) == a1 + mid + b2;
    StripOfPadded(a1, mid, b2);
  }

  /** `re.sub(r"\s+", "_", ...)` on a whitespace run between two other
      characters: one `_`, with each side collapsed on its own. */
  lemma {:induction false} CollapseRun(x: string, w: string, y: string)
    requires x == [] || !IsSpace(x[|x| - 1])
    requires w != [] && IsBlank(w)
    requires y == [] || !IsSpace(y[0])
    ensures CollapseSpaces(x + w + y) == CollapseSpaces(x) + "_" + CollapseSpaces(y)
  {
    if x == [] {
      assert x + w + y == w + y;
      CollapseRunFirst(w, y);
    } else {
      var t := x[1..];
      assert t != [] ==> t[|t| - 1] == x[|x| - 1];
      var h := CollapseCons(x, w + y);
      assert x + (w + y) == x + w + y;
      assert t + (w + y) == t + w + y;
      CollapseRun(t, w, y);
      AppendAssoc(h, CollapseSpaces(t) + "_", CollapseSpaces(y));
      AppendAssoc(h, CollapseSpaces(t), "_");
    }
  }

  /** What the first character of `x` contributes does not depend on the
      text after `x`, as long as `x` does not end a run of whitespace. */
  lemma CollapseCons(x: string, rest: string) returns (h: string)
    requires x != [] && (IsSpace(x[0]) ==> |x| > 1)
    ensures CollapseSpaces(x) == h + CollapseSpaces(x[1..])
    ensures CollapseSpaces(x + rest) == h + CollapseSpaces(x[1..] + rest)
  {
    h := if !IsSpace(x[0]) then [x[0]] else if IsSpace(x[1]) then [] else "_";
    assert (x + rest)[1..] == x[1..] + rest;
    assert |x| > 1 ==> (x + rest)[1] == x[1];
  }

  /** A run of whitespace at the start gives one `_`, then the rest. */
  lemma {:induction false} CollapseRunFirst(w: string, y: string)
    requires w != [] && IsBlank(w)
    requires y == [] || !IsSpace(y[0])
    ensures CollapseSpaces(w + y) == "_" + CollapseSpaces(y)
  {
    var t := w[1..];
    assert (w + y)[1..] == t + y;
    if t == [] {
      assert t + y == y;
    } else {
      assert IsBlank(t) by {
        forall i | 0 <= i < |t| ensures IsSpace(t[i]) {
          assert t[i] == w[i + 1];
        }
      }
      assert (w + y)[1] == t[0];
      CollapseRunFirst(t, y);
    }
  }

  /** A text that `SafeText` leaves alone and that fits the limit is the name. */
  lemma SafeNameOfFixedText(t: string, maxLen: int)
    requires t != [] && SafeText(JString(t)) == t
    requires maxLen == 0 || |t| <= maxLen
    ensures SafeName(JString(t), maxLen) == t
  {
  }

  /** The fallback ignores the limit: with `max_len` 3 an empty name still
      gives the six characters of `"noname"`. */
  lemma SafeNameFallbackExceedsLimit()
    ensures SafeName(JNull, 3) == "noname" && |SafeName(JNull, 3)| > 3
  {
    assert CleanText("") == [] by {
      assert Strip("") == "";
      assert ReplaceAny("", Unsafe, '_') == "";
    }
    assert SafeText(JNull) == [];
  }

  // ---------------------------------------------------------------------------
  // urlparse(url).path
  // ---------------------------------------------------------------------------

  /** `url.lstrip()` of the C0 control characters and the space, which
      `urlsplit` applies first. */
  function LStripControl(s: string): (r: string)
    ensures r == [] || r[0] > ' '
    ensures s != [] && s[0] > ' ' ==> r == s
  {
    if s != [] && s[0] <= ' ' then LStripControl(s[1..]) else s
  }

  /** `s` without any character of `cs` (`urlsplit` drops tab, CR and LF
      wherever they stand). */
  function Without(s: string, cs: set<char>): (r: string)
    ensures (forall c :: c in cs ==> c !in s) ==> r == s
  {
    if s == [] then [] else (if s[0] in cs then [] else [s[0]]) + Without(s[1..], cs)
  }

  predicate IsAsciiLetter(c: char) {
    'a' <= c <= 'z' || 'A' <= c <= 'Z'
  }

  /** The characters a URL scheme may hold. */
  predicate IsSchemeChar(c: char) {
    IsAsciiLetter(c) || IsDigit(c) || c == '+' || c == '-' || c == '.'
  }

  /** The schemes for which `urlparse` splits `;params` off the path. */
  const UsesParams: set<string> := {"", "ftp", "hdl", "prospero", "http", "imap", "https",
    "shttp", "rtsp", "rtsps", "rtspu", "sip", "sips", "mms", "sftp", "tel"}

  /** The first index at or after `from` holding a character of `cs`, or `|s|`. */
  function FirstOf(s: string, from: nat, cs: set<char>): (i: nat)
    requires from <= |s|
    ensures from <= i <= |s|
    ensures forall k :: from <= k < i ==> s[k] !in cs
    ensures i < |s| ==> s[i] in cs
    decreases |s| - from
  {
    if from == |s| || s[from] in cs then from else FirstOf(s, from + 1, cs)
  }

  /** The scheme (lower-cased) and what follows its `:`, or `""` and the
      whole text when it does not start with a scheme. */
  function SplitScheme(u: string): (string, string) {
    var i := IndexOf(u, ':');
    if i > 0 && IsAsciiLetter(u[0]) && forall k :: 0 <= k < i ==> IsSchemeChar(u[k])
    then (Lower(u[..i]), u[i + 1..])
    else ("", u)
  }

  /** The network location after `//`, and what follows it. */
  function SplitNetloc(rest: string): (string, string) {
    if |rest| >= 2 && rest[..2] == "//" then
      var e := FirstOf(rest, 2, {'/', '?', '#'});
      (rest[2..e], rest[e..])
    else ("", rest)
  }

  /** Everything before the first `c`. */
  function Before(s: string, c: char): string {
    var i := IndexOf(s, c);
    if i < 0 then s else s[..i]
  }

  /** `_splitparams`: the path without the `;params` of its last segment. */
  function WithoutParams(p: string): string {
    if ';' !in p then p
    else
      var slash := LastIndexOf(p, '/');
      if slash < 0 then Before(p, ';')
      else
        var i := FirstOf(p, slash, {';'});
        p[..i]
  }

  /** `urlparse(url).path`; an unbalanced `[` or `]` in the network location
      raises `ValueError`. */
  function UrlPath(url: string): (r: Result<string>)
    ensures r.Err? ==> r.error.kind == ValueError
  {
    var u := Without(LStripControl(url), {'\t', '\r', '\n'});
    var (scheme, rest) := SplitScheme(u);
    var (netloc, rest2) := SplitNetloc(rest);
    if ('[' in netloc) != (']' in netloc) then Err(Exc(ValueError, "Invalid IPv6 URL"))
    else
      var p := Before(Before(rest2, '#'), '?');
      Ok(if scheme in UsesParams then WithoutParams(p) else p)
  }

  // ---------------------------------------------------------------------------
  // guess_ext
  // ---------------------------------------------------------------------------

  /** The extension `guess_ext` chooses for a lower-cased path. */
  function ExtFor(path: string): (e: string)
    ensures e in {"png", "jpg", "webp", "gif"}
    ensures EndsWith(path, ".png") ==> e == "png"
    ensures !EndsWith(path, ".png") && (EndsWith(path, ".jpg") || EndsWith(path, ".jpeg")) ==> e == "jpg"
    ensures !EndsWith(path, ".png") && !EndsWith(path, ".jpg") && !EndsWith(path, ".jpeg")
      ==> e == (if EndsWith(path, ".webp") then "webp" else if EndsWith(path, ".gif") then "gif" else "jpg")
  {
    if EndsWith(path, ".png") then "png"
    else if EndsWith(path, ".jpg") || EndsWith(path, ".jpeg") then "jpg"
    else if EndsWith(path, ".webp") then "webp"
    else if EndsWith(path, ".gif") then "gif"
    else "jpg"
  }

  /** A path ending in one of the recognised extensions gets that extension,
      `.jpeg` as `jpg`, whatever comes before it. */
  lemma ExtForOfSuffix(stem: string, q: string)
    requires q == ".png" || q == ".jpg" || q == ".jpeg" || q == ".webp" || q == ".gif"
    ensures q == ".png" ==> ExtFor(stem + q) == "png"
    ensures q == ".jpg" || q == ".jpeg" ==> ExtFor(stem + q) == "jpg"
    ensures q == ".webp" ==> ExtFor(stem + q) == "webp"
    ensures q == ".gif" ==> ExtFor(stem + q) == "gif"
  {
    var p := stem + q;
    assert EndsWith(p, q) by {
      assert p[|p| - |q|..] == q;
    }
    assert p[|p| - 2] == q[|q| - 2] && p[|p| - 1] == q[|q| - 1];
    if q != ".png" {
      LastTwoDiffer(p, ".png");
    }
    if q == ".webp" || q == ".gif" {
      LastTwoDiffer(p, ".jpg");
      LastTwoDiffer(p, ".jpeg");
    }
    if q == ".gif" {
      LastTwoDiffer(p, ".webp");
    }
  }

  /** A text whose last two characters differ from those of `q` does not end
      with `q`. */
  lemma LastTwoDiffer(s: string, q: string)
    requires |s| >= 2 && |q| >= 2
    requires s[|s| - 1] != q[|q| - 1] || s[|s| - 2] != q[|q| - 2]
    ensures !EndsWith(s, q)
  {
    if |q| <= |s| {
      var t := s[|s| - |q|..];
      assert t[|t| - 1] == s[|s| - 1] && t[|t| - 2] == s[|s| - 2];
    }
  }

  /** `guess_ext(url)`: the extension for the lower-cased path of the URL,
      `"jpg"` by default. */
  function GuessExt(url: string): (r: Result<string>)
    ensures r.Ok? <==> UrlPath(url).Ok?
    ensures r.Ok? ==> r.value in {"png", "jpg", "webp", "gif"}
    ensures r.Ok? ==> r.value == ExtFor(Lower(UrlPath(url).value))
  {
    var path :- UrlPath(url);
    Ok(ExtFor(Lower(path)))
  }

  /** No character of `s` is in `cs`. */
  predicate NoneOf(s: string, cs: set<char>) {
    forall i :: 0 <= i < |s| ==> s[i] !in cs
  }

  /** For an `https` URL with a plain host and a path without query,
      fragment or parameters, `urlparse` returns exactly that path. */
  lemma UrlPathOfHttps(host: string, path: string)
    requires NoneOf(host, {'/', '?', '#'}) && NoneOf(host, {'[', ']'})
    requires path != [] && path[0] == '/' && NoneOf(path, {'?', '#', ';'})
    requires NoneOf(host, {'\t', '\r', '\n'}) && NoneOf(path, {'\t', '\r', '\n'})
    ensures UrlPath("https://" + host + path) == Ok(path)
  {
    var rest := "//" + host + path;
    var url := "https:" + rest;
    assert "https://" + host + path == url;
    assert Without(LStripControl(url), {'\t', '\r', '\n'}) == url by {
      assert LStripControl(url) == url;
      assert NoneOf(url, {'\t', '\r', '\n'}) by {
        forall i | 0 <= i < |url| ensures url[i] !in {'\t', '\r', '\n'} {
          if 8 <= i < 8 + |host| {
            assert url[i] == host[i - 8];
          } else if i >= 8 + |host| {
            assert url[i] == path[i - 8 - |host|];
          }
        }
      }
    }
    assert SplitScheme(url) == ("https", rest) by {
      SchemeOfHttps(rest);
    }
    assert SplitNetloc(rest) == (host, path) by {
      NetlocOfPlainHost(host, path);
    }
    assert '[' !in host && ']' !in host;
    assert '#' !in path && '?' !in path && ';' !in path;
  }

  /** `"https:"` followed by anything splits off the scheme `https`. */
  lemma SchemeOfHttps(rest: string)
    ensures SplitScheme("https:" + rest) == ("https", rest)
  {
    var u := "https:" + rest;
    assert u[5] == ':' && ':' !in u[..5];
    assert IndexOf(u, ':') == 5;
    assert u[..5] == "https" && u[6..] == rest;
    assert Lower("https") == "https";
  }

  /** A host free of `/`, `?` and `#`, followed by a path starting with `/`. */
  lemma NetlocOfPlainHost(host: string, path: string)
    requires NoneOf(host, {'/', '?', '#'})
    requires path != [] && path[0] == '/'
    ensures SplitNetloc("//" + host + path) == (host, path)
  {
    var rest := "//" + host + path;
    var e := FirstOf(rest, 2, {'/', '?', '#'});
    assert rest[2 + |host|] == '/';
    forall k | 2 <= k < 2 + |host| ensures rest[k] !in {'/', '?', '#'} {
      assert rest[k] == host[k - 2];
    }
    assert e == 2 + |host|;
    assert rest[2..e] == host && rest[e..] == path;
  }

  /** So for such a URL the extension depends only on the end of its path:
      `https://cdn.example/a/B.JPEG` gives `"jpg"`. */
  lemma GuessExtOfHttps(host: string, path: string)
    requires NoneOf(host, {'/', '?', '#'}) && NoneOf(host, {'[', ']'})
    requires path != [] && path[0] == '/' && NoneOf(path, {'?', '#', ';'})
    requires NoneOf(host, {'\t', '\r', '\n'}) && NoneOf(path, {'\t', '\r', '\n'})
    ensures GuessExt("https://" + host + path) == Ok(ExtFor(Lower(path)))
  {
    UrlPathOfHttps(host, path);
  }
}
