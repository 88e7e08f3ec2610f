/** `src/utils/str_utils.py`: keyword splitting, number extraction and
    whitespace normalisation. */
module StrUtils {
  import opened Common
  import opened JsonValue

  // ---------------------------------------------------------------------------
  // split_comma_keywords
  // ---------------------------------------------------------------------------

  /** `[k.strip() for k in parts if k.strip()]`. */
  function KeepTrimmed(parts: seq<string>): seq<string> {
    if parts == [] then []
    else (if Strip(parts[0]) != [] then [Strip(parts[0])] else []) + KeepTrimmed(parts[1..])
  }

  /** The pieces kept from the first part, then those of the rest. */
  lemma KeepTrimmedCons(parts: seq<string>)
    requires parts != []
    ensures KeepTrimmed(parts) == (if Strip(parts[0]) != [] then [Strip(parts[0])] else []) + KeepTrimmed(parts[1..])
  {
  }

  /** Every kept piece is trimmed and not blank. */
  lemma {:induction false} KeepTrimmedNonBlank(parts: seq<string>)
    ensures forall k :: k in KeepTrimmed(parts) ==> k != [] && Strip(k) == k
  {
    if parts != [] {
      var head := if Strip(parts[0]) != [] then [Strip(parts[0])] else [];
      var tail := KeepTrimmed(parts[1..]);
      KeepTrimmedCons(parts);
      KeepTrimmedNonBlank(parts[1..]);
      StripIdempotent(parts[0]);
      forall k | k in head + tail ensures k != [] && Strip(k) == k {
        if k !in head {
          assert k in tail;
        }
      }
    }
  }

  /** No kept piece holds a comma when no part did. */
  lemma {:induction false} KeepTrimmedCommaFree(parts: seq<string>)
    requires forall p :: p in parts ==> ',' !in p
    ensures forall k :: k in KeepTrimmed(parts) ==> ',' !in k
  {
    if parts != [] {
      var head := if Strip(parts[0]) != [] then [Strip(parts[0])] else [];
      var tail := KeepTrimmed(parts[1..]);
      KeepTrimmedCons(parts);
      assert forall p :: p in parts[1..] ==> p in parts;
      KeepTrimmedCommaFree(parts[1..]);
      StripChars(parts[0]);
      assert parts[0] in parts;
      forall k | k in head + tail ensures ',' !in k {
        if k !in head {
          assert k in tail;
        }
      }
    }
  }

  /** `split_comma_keywords(s)`: the comma-separated pieces, trimmed, with the
      blank ones dropped; `None` and `""` give `[]`. */
  function SplitCommaKeywords(s: Option<string>): (r: seq<string>)
    ensures forall k :: k in r ==> k != [] && Strip(k) == k && ',' !in k
  {
    if s.None? || s.value == [] then []
    else
      var parts := Split(s.value, ',');
      KeepTrimmedNonBlank(parts);
      assert forall p :: p in parts ==> ',' !in p;
      KeepTrimmedCommaFree(parts);
      KeepTrimmed(parts)
  }

  /** For every text, the keywords are the trimmed non-blank pieces of
      `split(",")`; the empty text has the single blank piece `""`. */
  lemma SplitCommaKeywordsOfAny(s: string)
    ensures SplitCommaKeywords(Some(s)) == KeepTrimmed(Split(s, ','))
  {
    if s == [] {
      assert Split(s, ',') == [""];
      KeepTrimmedCons([""]);
    }
  }

  /** Keeping distributes over concatenation. */
  lemma {:induction false} KeepTrimmedAppend(p: seq<string>, q: seq<string>)
    ensures KeepTrimmed(p + q) == KeepTrimmed(p) + KeepTrimmed(q)
  {
    if p == [] {
      assert p + q == q;
    } else {
      assert (p + q)[0] == p[0] && (p + q)[1..] == p[1..] + q;
      KeepTrimmedCons(p + q);
      KeepTrimmedAppend(p[1..], q);
    }
  }

  /** A text without commas is one keyword, trimmed, or none when it is blank. */
  lemma SplitCommaKeywordsOfPiece(s: string)
    requires ',' !in s
    ensures SplitCommaKeywords(Some(s)) == if Strip(s) == [] then [] else [Strip(s)]
  {
    SplitCommaKeywordsOfAny(s);
    SplitNoSep(s, ',');
    KeepTrimmedCons([s]);
    assert [s][1..] == [];
  }

  /** The keywords of `a + "," + b` are those of `a` followed by those of `b`. */
  lemma SplitCommaKeywordsAppend(a: string, b: string)
    ensures SplitCommaKeywords(Some(a + "," + b)) == SplitCommaKeywords(Some(a)) + SplitCommaKeywords(Some(b))
  {
    SplitCommaKeywordsOfAny(a + "," + b);
    SplitCommaKeywordsOfAny(a);
    SplitCommaKeywordsOfAny(b);
    SplitAppend(a, b, ',');
    KeepTrimmedAppend(Split(a, ','), Split(b, ','));
  }

  /** Keywords that are already trimmed, not blank and free of commas survive
      the trip through `",".join(...)` and back unchanged. */
  lemma SplitCommaKeywordsOfJoin(ks: seq<string>)
    requires forall i :: 0 <= i < |ks| ==> ks[i] != [] && Strip(ks[i]) == ks[i] && ',' !in ks[i]
    ensures SplitCommaKeywords(Some(Join(ks, ','))) == ks
  {
    if ks != [] {
      assert Join(ks, ',') != [] by {
        JoinStartsWith(ks, ',');
      }
      SplitJoin(ks, ',');
      KeepTrimmedOfTrimmed(ks);
    }
  }

  lemma {:induction false} JoinStartsWith(parts: seq<string>, sep: char)
    requires parts != []
    ensures |Join(parts, sep)| >= |parts[0]|
  {
  }

  lemma {:induction false} KeepTrimmedOfTrimmed(ks: seq<string>)
    requires forall i :: 0 <= i < |ks| ==> ks[i] != [] && Strip(ks[i]) == ks[i]
    ensures KeepTrimmed(ks) == ks
  {
    if ks != [] {
      KeepTrimmedOfTrimmed(ks[1..]);
      assert [ks[0]] + ks[1..] == ks;
    }
  }

  // ---------------------------------------------------------------------------
  // extract_numbers
  // ---------------------------------------------------------------------------

  /** `[int(num) for num in runs]`. */
  function IntsOf(runs: seq<string>): seq<int> {
    if runs == [] then []
    else [match ParseInt(runs[0]) case Some(v) => v case None => 0] + IntsOf(runs[1..])
  }

  /** Runs of digits convert to their decimal values. */
  lemma {:induction false} IntsOfDigits(runs: seq<string>)
    requires forall i :: 0 <= i < |runs| ==> runs[i] != [] && AllDigits(runs[i])
    ensures |IntsOf(runs)| == |runs|
    ensures forall i :: 0 <= i < |runs| ==> IntsOf(runs)[i] == DecimalValue(runs[i])
  {
    if runs != [] {
      var tail := runs[1..];
      var rest := IntsOf(tail);
      assert forall i :: 0 <= i < |tail| ==> tail[i] != [] && AllDigits(tail[i]) by {
        forall i | 0 <= i < |tail| ensures tail[i] != [] && AllDigits(tail[i]) {
          assert tail[i] == runs[i + 1];
        }
      }
      IntsOfDigits(tail);
      var n := DecimalValue(runs[0]) as int;
      assert IntsOf(runs) == [n] + rest by {
        ParseIntOfDigits(runs[0]);
      }
      forall i | 0 <= i < |runs| ensures ([n] + rest)[i] == DecimalValue(runs[i]) {
        if i > 0 {
          IntsOfAt(n, rest, tail, runs, i);
        }
      }
    }
  }

  lemma IntsOfAt(n: int, rest: seq<int>, tail: seq<string>, runs: seq<string>, i: int)
    requires runs != [] && tail == runs[1..] && |rest| == |tail| && 0 < i < |runs|
    requires AllDigits(runs[i]) && rest[i - 1] == DecimalValue(tail[i - 1])
    ensures ([n] + rest)[i] == DecimalValue(runs[i])
  {
  }

  /** `extract_numbers(text)`: the values of the maximal runs of digits, left
      to right; `None` and `""` give `[]`. */
  function ExtractNumbers(text: Option<string>): (r: seq<int>)
    ensures text.None? ==> r == []
    ensures text.Some? ==> (|r| == |DigitRuns(text.value)|
      && forall i :: 0 <= i < |r| ==> r[i] == DecimalValue(DigitRuns(text.value)[i]))
    ensures forall i :: 0 <= i < |r| ==> r[i] >= 0
  {
    if text.None? || text.value == [] then []
    else
      IntsOfDigits(DigitRuns(text.value));
      IntsOf(DigitRuns(text.value))
  }

  /** Natural numbers written out in decimal and separated by single spaces. */
  function NumbersText(ns: seq<nat>): string {
    if ns == [] then ""
    else if |ns| == 1 then NatToString(ns[0])
    else NatToString(ns[0]) + " " + NumbersText(ns[1..])
  }

  /** The decimal numerals of `ns`, in order. */
  function Numerals(ns: seq<nat>): (r: seq<string>)
    ensures |r| == |ns| && forall i :: 0 <= i < |ns| ==> r[i] == NatToString(ns[i])
  {
    if ns == [] then [] else [NatToString(ns[0])] + Numerals(ns[1..])
  }

  /** `extract_numbers` reads back every number of such a text, in order. */
  lemma ExtractNumbersOfText(ns: seq<nat>)
    ensures ExtractNumbers(Some(NumbersText(ns))) == ns
  {
    if ns != [] {
      var t := NumbersText(ns);
      assert t != [] by {
        assert |NatToString(ns[0])| >= 1;
      }
      DigitRunsOfText(ns);
      var r := ExtractNumbers(Some(t));
      forall i | 0 <= i < |ns| ensures r[i] == ns[i] {
        assert DigitRuns(t)[i] == NatToString(ns[i]);
      }
    }
  }

  /** The runs of digits of such a text are exactly the numerals. */
  lemma {:induction false} DigitRunsOfText(ns: seq<nat>)
    ensures DigitRuns(NumbersText(ns)) == Numerals(ns)
  {
    if |ns| == 1 {
      var d := NatToString(ns[0]);
      DigitRunsOfDigitsThen(d, []);
      assert d + [] == d;
    } else if |ns| > 1 {
      var d, rest := NatToString(ns[0]), NumbersText(ns[1..]);
      assert NumbersText(ns) == d + ([' '] + rest);
      DigitRunsOfDigitsThen(d, [' '] + rest);
      assert ([' '] + rest)[1..] == rest;
      DigitRunsOfText(ns[1..]);
    }
  }

  /** The run at the start of `d + rest` is all of `d` when `rest` does not
      start with a digit. */
  lemma {:induction false} DigitRunLengthOfDigits(d: string, rest: string)
    requires AllDigits(d)
    requires rest == [] || !IsDigit(rest[0])
    ensures DigitRunLength(d + rest) == |d|
  {
    if d != [] {
      DigitRunLengthOfDigits(d[1..], rest);
      assert (d + rest)[1..] == d[1..] + rest;
    } else {
      assert d + rest == rest;
    }
  }

  lemma DigitRunsOfDigitsThen(d: string, rest: string)
    requires d != [] && AllDigits(d)
    requires rest == [] || !IsDigit(rest[0])
    ensures DigitRuns(d + rest) == [d] + DigitRuns(rest)
  {
    DigitRunLengthOfDigits(d, rest);
    assert (d + rest)[..|d|] == d && (d + rest)[|d|..] == rest;
  }

  // ---------------------------------------------------------------------------
  // str_norm / str_clean / to_str
  // ---------------------------------------------------------------------------

  const NBSP: char := '\U{A0}'
  const ZWSP: char := '\U{200B}'

  /** `str_norm(s)`: every no-break space and zero-width space becomes a
      space, then the text is trimmed; `None` and `""` give `""`. */
  function StrNorm(s: Option<string>): (r: string)
    ensures NBSP !in r && ZWSP !in r
    ensures Strip(r) == r
  {
    if s.None? || s.value == [] then ""
    else
      var t := ReplaceAny(s.value, {NBSP, ZWSP}, ' ');
      ReplaceAnyRemoves(s.value, {NBSP, ZWSP}, ' ');
      StripChars(t);
      StripIdempotent(t);
      Strip(t)
  }

  /** `str_clean(s)`: only no-break spaces become spaces, then the text is
      trimmed; `None` and `""` give `""`. */
  function StrClean(s: Option<string>): (r: string)
    ensures NBSP !in r
    ensures Strip(r) == r
  {
    if s.None? || s.value == [] then ""
    else
      var t := ReplaceAny(s.value, {NBSP}, ' ');
      ReplaceAnyRemoves(s.value, {NBSP}, ' ');
      StripChars(t);
      StripIdempotent(t);
      Strip(t)
  }

  /** Text without no-break spaces is only trimmed. */
  lemma StrCleanOfPlain(s: string)
    requires NBSP !in s
    ensures StrClean(Some(s)) == Strip(s)
  {
    ReplaceAnyAbsent(s, {NBSP}, ' ');
  }

  /** A no-break space counts as an ordinary space, wherever it stands. */
  lemma StrCleanOfNbsp(a: string, b: string)
    ensures StrClean(Some(a + [NBSP] + b)) == StrClean(Some(a + " " + b))
  {
    SpecialAsSpace(a, NBSP, b, {NBSP});
  }

  /** Text without no-break and zero-width spaces is only trimmed. */
  lemma StrNormOfPlain(s: string)
    requires NBSP !in s && ZWSP !in s
    ensures StrNorm(Some(s)) == Strip(s)
  {
    ReplaceAnyAbsent(s, {NBSP, ZWSP}, ' ');
  }

  /** No-break and zero-width spaces count as ordinary spaces, wherever
      they stand. */
  lemma StrNormOfSpecial(a: string, c: char, b: string)
    requires c == NBSP || c == ZWSP
    ensures StrNorm(Some(a + [c] + b)) == StrNorm(Some(a + " " + b))
  {
    SpecialAsSpace(a, c, b, {NBSP, ZWSP});
  }

  /** Replacing the characters of `cs` by spaces treats one of them like a space. */
  lemma SpecialAsSpace(a: string, c: char, b: string, cs: set<char>)
    requires c in cs && ' ' !in cs
    ensures ReplaceAny(a + [c] + b, cs, ' ') == ReplaceAny(a + " " + b, cs, ' ')
  {
    ReplaceAnyAppend(a + [c], b, cs, ' ');
    ReplaceAnyAppend(a, [c], cs, ' ');
    ReplaceAnyAppend(a + " ", b, cs, ' ');
    ReplaceAnyAppend(a, " ", cs, ' ');
  }

  /** `str_norm` is `str_clean` after zero-width spaces have become spaces. */
  lemma StrNormIsStrClean(s: string)
    ensures StrNorm(Some(s)) == StrClean(Some(ReplaceAny(s, {ZWSP}, ' ')))
  {
    var z := ReplaceAny(s, {ZWSP}, ' ');
    assert ReplaceAny(z, {NBSP}, ' ') == ReplaceAny(s, {NBSP, ZWSP}, ' ');
  }

  /** Normalising twice is normalising once. */
  lemma StrNormIdempotent(s: Option<string>)
    ensures StrNorm(Some(StrNorm(s))) == StrNorm(s)
  {
    NormOfNormed(StrNorm(s));
  }

  /** Text that is trimmed and free of no-break and zero-width spaces is
      already normal. */
  lemma NormOfNormed(r: string)
    requires NBSP !in r && ZWSP !in r && Strip(r) == r
    ensures StrNorm(Some(r)) == r
  {
    if r != [] {
      ReplaceAnyAbsent(r, {NBSP, ZWSP}, ' ');
    }
  }

  /** The trimmed text, or the default when nothing is left after trimming. */
  function TrimmedOr(t: string, default: string): (r: string)
    ensures r == default || (r != [] && Strip(r) == r && r == Strip(t))
    ensures Strip(t) != [] ==> r == Strip(t)
    ensures Strip(t) == [] ==> r == default
  {
    var s := Strip(t);
    StripIdempotent(t);
    if s != [] then s else default
  }

  /** `to_str(v, default)`: the default for `None` and for values whose
      `str()` is blank, else the trimmed `str(v)`. */
  function ToStr(v: Json, default: string): (r: string)
    ensures v.JNull? ==> r == default
    ensures r == default || (r != [] && Strip(r) == r && r == Strip(PyStr(v)))
    ensures !v.JNull? && Strip(PyStr(v)) != [] ==> r == Strip(PyStr(v))
    ensures !v.JNull? && Strip(PyStr(v)) == [] ==> r == default
  {
    if v.JNull? then default else TrimmedOr(PyStr(v), default)
  }

  /** Feeding the result back in returns it unchanged, as long as the
      default is itself trimmed or blank (for `" x "` it would come back as
      `"x"`). */
  lemma ToStrIdempotent(v: Json, default: string)
    requires Strip(default) == default || Strip(default) == []
    ensures ToStr(JString(ToStr(v, default)), default) == ToStr(v, default)
  {
    var r := ToStr(v, default);
    assert PyStr(JString(r)) == r;
    StripIdempotent(r);
  }
}
