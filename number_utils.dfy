/** `src/utils/number_utils.py`: the integer helpers (the float helpers are
    not part of this model). */
module NumberUtils {
  import opened Common
  import opened JsonValue

  // ---------------------------------------------------------------------------
  // calculate_divmod
  // ---------------------------------------------------------------------------

  /** Python's `a // b`, which rounds toward negative infinity. Dafny's `/` is
      Euclidean, which agrees with it only for a positive divisor. */
  function FloorDiv(a: int, b: int): int
    requires b != 0
  {
    if b > 0 then a / b else (-a) / (-b)
  }

  /** `calculate_divmod(total_cnt, divisor)`: `(total_cnt // divisor,
      total_cnt % divisor)`; a zero divisor raises `ZeroDivisionError`. The
      remainder takes the sign of the divisor, as Python's `%` does. */
  function CalculateDivmod(total: int, divisor: int): (r: Result<(int, int)>)
    ensures r.Err? <==> divisor == 0
    ensures r.Err? ==> r.error.kind == ZeroDivision
    ensures r.Ok? ==> r.value.0 * divisor + r.value.1 == total
    ensures r.Ok? && divisor > 0 ==> 0 <= r.value.1 < divisor
    ensures r.Ok? && divisor < 0 ==> divisor < r.value.1 <= 0
  {
    if divisor == 0 then Err(Exc(ZeroDivision, "integer division or modulo by zero"))
    else
      var q := FloorDiv(total, divisor);
      var m := total - q * divisor;
      assert divisor < 0 ==> divisor < m <= 0 by {
        if divisor < 0 {
          var k := (-total) % (-divisor);
          assert -total == (-divisor) * q + k;
        }
      }
      Ok((q, m))
  }

  /** The quotient and remainder are the only pair with these properties, so
      `CalculateDivmod` is Python's `divmod` for every non-zero divisor. */
  lemma DivmodUnique(total: int, divisor: int, q: int, m: int)
    requires divisor != 0 && q * divisor + m == total
    requires divisor > 0 ==> 0 <= m < divisor
    requires divisor < 0 ==> divisor < m <= 0
    ensures CalculateDivmod(total, divisor) == Ok((q, m))
  {
    var r := CalculateDivmod(total, divisor).value;
    var k := r.0 - q;
    assert k * divisor == m - r.1 by {
      assert r.0 * divisor + r.1 == q * divisor + m;
      assert k * divisor == r.0 * divisor - q * divisor;
    }
    if k >= 1 {
      MulAtLeast(k, divisor);
    } else if k <= -1 {
      MulAtLeast(-k, divisor);
    }
  }

  /** A non-zero multiple of `d` is at least `|d|` away from zero. */
  lemma MulAtLeast(k: int, d: int)
    requires k >= 1 && d != 0
    ensures d > 0 ==> k * d >= d
    ensures d < 0 ==> k * d <= d
  {
    if k > 1 {
      MulAtLeast(k - 1, d);
      assert k * d == (k - 1) * d + d;
    }
  }

  // ---------------------------------------------------------------------------
  // to_int_digits
  // ---------------------------------------------------------------------------

  /** `to_int_digits(s)`: `int` of all digit runs joined together, so
      `"1,234원"` gives 1234; `None`, `""` and text without digits give 0. */
  function ToIntDigits(s: Option<string>): (n: int)
    ensures n >= 0
    ensures s.Some? ==> n == DecimalValue(DigitsOf(s.value))
  {
    if s.None? || s.value == [] then 0
    else
      var runs := DigitRuns(s.value);
      assert Concat(runs) == DigitsOf(s.value) by {
        ConcatDigitRuns(s.value);
      }
      if runs == [] then 0
      else
        assert Concat(runs) != [] by {
          assert Concat(runs) == runs[0] + Concat(runs[1..]);
        }
        ParseIntOfDigits(Concat(runs));
        match ParseInt(Concat(runs))
        case Some(v) => v
        case None => 0
  }

  /** Text without a single digit converts to 0. */
  lemma {:induction false} ToIntDigitsOfDigitFree(s: string)
    requires forall i :: 0 <= i < |s| ==> !IsDigit(s[i])
    ensures ToIntDigits(Some(s)) == 0
  {
    DigitsOfDigitFree(s);
  }

  lemma {:induction false} DigitsOfDigitFree(s: string)
    requires forall i :: 0 <= i < |s| ==> !IsDigit(s[i])
    ensures DigitsOf(s) == []
  {
    if s != [] {
      DigitsOfDigitFree(s[1..]);
    }
  }

  /** Characters other than digits are ignored wherever they stand: putting
      any digit-free text between two pieces does not change the value. */
  lemma ToIntDigitsIgnoresSeparators(a: string, sep: string, b: string)
    requires forall i :: 0 <= i < |sep| ==> !IsDigit(sep[i])
    ensures ToIntDigits(Some(a + sep + b)) == ToIntDigits(Some(a + b))
  {
    assert DigitsOf(a + sep + b) == DigitsOf(a + b) by {
      DigitsOfDigitFree(sep);
      DigitsOfAppend(a + sep, b);
      DigitsOfAppend(a, sep);
      DigitsOfAppend(a, b);
      assert DigitsOf(a) + [] == DigitsOf(a);
    }
  }

  // ---------------------------------------------------------------------------
  // to_int
  // ---------------------------------------------------------------------------

  /** What `to_int` does with the text `str(v)` of a value that is not
      `None`: the default when it is blank or does not parse once its commas
      are removed, else the integer it spells. */
  function IntOfText(t: string, default: int): (n: int)
    ensures IsBlank(t) ==> n == default
    ensures !IsBlank(t) && ParseInt(RemoveChar(t, ',')).Some? ==> ParseInt(RemoveChar(t, ',')) == Some(n)
    ensures ParseInt(RemoveChar(t, ',')).None? ==> n == default
  {
    StripEmptyIff(t);
    if Strip(t) == [] then default
    else match ParseInt(RemoveChar(t, ','))
      case Some(n) => n
      case None => default
  }

  /** `to_int(v, default)`: `None` and values whose `str()` is blank give the
      default; otherwise `int()` of `str(v)` with every comma removed, or the
      default when that does not parse. */
  function ToInt(v: Json, default: int): (n: int)
    ensures v.JNull? ==> n == default
    ensures !v.JNull? && IsBlank(PyStr(v)) ==> n == default
    ensures n == default || ParseInt(RemoveChar(PyStr(v), ',')) == Some(n)
    ensures !v.JNull? && !IsBlank(PyStr(v)) && ParseInt(RemoveChar(PyStr(v), ',')).Some?
      ==> ParseInt(RemoveChar(PyStr(v), ',')) == Some(n)
    ensures !v.JNull? && ParseInt(RemoveChar(PyStr(v), ',')).None? ==> n == default
  {
    if v.JNull? then default else IntOfText(PyStr(v), default)
  }

  /** Removing the commas first changes nothing: `to_int` sees the same text. */
  lemma ToIntIgnoresCommas(s: string, default: int)
    ensures ToInt(JString(s), default) == ToInt(JString(RemoveChar(s, ',')), default)
  {
    var t := RemoveChar(s, ',');
    assert PyStr(JString(s)) == s && PyStr(JString(t)) == t;
    IntOfTextIgnoresCommas(s, default);
  }

  lemma IntOfTextIgnoresCommas(s: string, default: int)
    ensures IntOfText(s, default) == IntOfText(RemoveChar(s, ','), default)
  {
    var t := RemoveChar(s, ',');
    assert RemoveChar(t, ',') == t;
    if IsBlank(s) {
      assert IsBlank(t) by {
        forall i | 0 <= i < |t| ensures IsSpace(t[i]) {
          assert t[i] in s;
        }
      }
    } else if IsBlank(t) {
      assert ParseInt(t) == None by {
        StripEmptyIff(t);
      }
    }
  }

  /** An integer converts to itself: `to_int(n) == n` and `to_int(str(n)) == n`. */
  lemma ToIntOfInt(n: int, default: int)
    ensures ToInt(JInt(n), default) == n
    ensures ToInt(JString(IntToString(n)), default) == n
  {
    var t := IntToString(n);
    IntOfTextOfInt(n, default);
    assert PyStr(JInt(n)) == t && PyStr(JString(t)) == t;
  }

  lemma IntOfTextOfInt(n: int, default: int)
    ensures IntOfText(IntToString(n), default) == n
  {
    var t := IntToString(n);
    assert !IsBlank(t) by {
      assert !IsSpace(t[|t| - 1]);
    }
    assert RemoveChar(t, ',') == t by {
      assert ',' !in t;
    }
    ParseIntOfIntToString(n);
  }

  /** `str.strip()` drops a trailing U+001C-U+001F, so such text is not
      blank, but `int()` refuses it: "5\x1c" gives the default. */
  lemma IntOfTextOfSeparator(c: char, default: int)
    requires '\U{1C}' <= c <= '\U{1F}'
    ensures IntOfText("5" + [c], default) == default
    ensures ToInt(JString("5" + [c]), default) == default
  {
    var t := "5" + [c];
    assert RemoveChar(t, ',') == t by {
      assert forall i :: 0 <= i < |t| ==> t[i] != ',';
    }
    assert !IsBlank(t) by {
      assert !IsSpace(t[0]);
    }
    ParseIntRejectsSeparator("5", c);
    assert PyStr(JString(t)) == t;
  }

  /** `int()` refuses text that starts with a letter. */
  lemma ParseIntRejectsLetter(t: string)
    requires t != [] && !IsDigit(t[0]) && t[0] != '-' && t[0] != '+' && !IsSpace(t[0])
    requires !IsSpace(t[|t| - 1])
    ensures ParseInt(t) == None
  {
    IntStripOfTrimmed(t);
  }

  /** Booleans do not convert: `str(True)` is `"True"`, which `int()` rejects. */
  lemma ToIntOfBool(b: bool, default: int)
    ensures ToInt(JBool(b), default) == default
  {
    var t := if b then "True" else "False";
    assert PyStr(JBool(b)) == t;
    IntOfTextOfWord(t, default);
  }

  /** `int()` of the words `True` and `False` fails. */
  lemma IntOfTextOfWord(t: string, default: int)
    requires t == "True" || t == "False"
    ensures IntOfText(t, default) == default
  {
    assert RemoveChar(t, ',') == t by {
      assert forall i :: 0 <= i < |t| ==> t[i] != ',';
    }
    ParseIntRejectsLetter(t);
  }
}
