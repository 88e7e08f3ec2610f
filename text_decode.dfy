/** Reading a file as text before `json.loads`: the strict UTF-8 decoder that
    `read_text(encoding="utf-8")` and `open(path, encoding="utf-8")` run over
    the whole file, its `utf-8-sig` variant, and the error `json.loads`
    raises for decoded text that is not a JSON document. The well-formed
    byte sequences are those of section 3 of RFC 3629; the positions and
    reasons are the ones CPython's decoder reports. */
module TextDecode {
  import opened Common

  /** The bytes `start` up to `end` (exclusive) that the decoder refuses, and
      the reason it gives. */
  datatype Fault = Fault(start: nat, end: nat, reason: string)

  /** The number of bytes a lead byte announces; 0 for a byte that cannot
      start a sequence (a continuation byte, `C0`, `C1`, `F5` to `FF`). */
  function SeqLength(b: byte): nat {
    if b < 0x80 then 1
    else if b < 0xC2 then 0
    else if b < 0xE0 then 2
    else if b < 0xF0 then 3
    else if b < 0xF5 then 4
    else 0
  }

  /** Whether `b` may stand at index `j` (1 or more) of a sequence led by
      `lead`. The second byte after `E0`, `ED`, `F0` and `F4` has a narrower
      range, which rules out overlong forms, surrogates and code points above
      U+10FFFF. */
  predicate Follows(lead: byte, j: nat, b: byte) {
    if j == 1 && lead == 0xE0 then 0xA0 <= b <= 0xBF
    else if j == 1 && lead == 0xED then 0x80 <= b <= 0x9F
    else if j == 1 && lead == 0xF0 then 0x90 <= b <= 0xBF
    else if j == 1 && lead == 0xF4 then 0x80 <= b <= 0x8F
    else 0x80 <= b <= 0xBF
  }

  /** For the sequence led by `s[i]`, the offset from `j` on of the first
      byte that does not follow the lead, stopping at `n` or at the end of
      `s`. */
  function Accepted(s: seq<byte>, i: nat, n: nat, j: nat): (k: nat)
    requires 1 <= j && i + j <= |s|
    ensures j <= k && i + k <= |s|
    ensures j <= n ==> k <= n
    decreases |s| - (i + j)
  {
    if j < n && i + j < |s| && Follows(s[i], j, s[i + j]) then Accepted(s, i, n, j + 1) else j
  }

  /** What the bytes from index `i` on start with: a whole well-formed
      sequence of `n` bytes, or `len` bytes the decoder refuses and why. */
  datatype Head = Whole(n: nat) | Broken(len: nat, reason: string)

  /** The sequence the lead byte `s[i]` starts: a byte that cannot start a
      sequence, a byte that cannot continue one, or a sequence cut off by the
      end. */
  function Lead(s: seq<byte>, i: nat): (h: Head)
    requires i < |s|
    ensures h.Whole? ==> 1 <= h.n && i + h.n <= |s|
    ensures h.Broken? ==> 1 <= h.len && i + h.len <= |s|
  {
    var n := SeqLength(s[i]);
    if n == 0 then Broken(1, "invalid start byte")
    else
      var k := Accepted(s, i, n, 1);
      if k == n then Whole(n)
      else if i + k < |s| then Broken(k, "invalid continuation byte")
      else Broken(|s| - i, "unexpected end of data")
  }

  /** The first malformed sequence of `s` at or after index `i`, a sequence
      boundary. */
  function FaultAt(s: seq<byte>, i: nat): (f: Option<Fault>)
    requires i <= |s|
    ensures f.Some? ==> i <= f.value.start < f.value.end <= |s|
    decreases |s| - i
  {
    if i == |s| then None
    else match Lead(s, i)
      case Whole(n) => FaultAt(s, i + n)
      case Broken(len, reason) => Some(Fault(i, i + len, reason))
  }

  /** Two lower-case hexadecimal digits. */
  function Hex2(b: byte): string {
    [HexDigit(b as int / 16), HexDigit(b as int % 16)]
  }

  /** `str()` of the `UnicodeDecodeError` for fault `f` of `s`: one byte is
      named by its value, a longer range by its first and last position. */
  function FaultMessage(s: seq<byte>, f: Fault): (m: string)
    requires f.start < f.end && f.start < |s|
    ensures StartsWith(m, "'utf-8' codec can't decode byte")
  {
    var p := "'utf-8' codec can't decode byte";
    var rest :=
      if f.end == f.start + 1 then
        " 0x" + Hex2(s[f.start]) + " in position " + NatToString(f.start) + ": " + f.reason
      else
        "s in position " + NatToString(f.start) + "-" + NatToString(f.end - 1) + ": " + f.reason;
    assert (p + rest)[..|p|] == p;
    p + rest
  }

  /** The message of the `UnicodeDecodeError` that decoding `s` as UTF-8
      raises, or `None` when `s` is well-formed. */
  function DecodeError(s: seq<byte>): (r: Option<string>)
    ensures r.Some? <==> FaultAt(s, 0).Some?
    ensures r.Some? ==> StartsWith(r.value, "'utf-8' codec can't decode byte")
  {
    match FaultAt(s, 0)
    case None => None
    case Some(f) => Some(FaultMessage(s, f))
  }

  const Bom: seq<byte> := [0xEF, 0xBB, 0xBF]

  /** Whether `s` starts with a UTF-8 byte-order mark. */
  predicate HasBom(s: seq<byte>) {
    |s| >= 3 && s[..3] == Bom
  }

  /** Decoding with `utf-8-sig`: a leading byte-order mark is dropped before
      decoding, so positions count from after it, and input that is only the
      start of a byte-order mark decodes to the empty text. */
  function SigDecodeError(s: seq<byte>): (r: Option<string>)
    ensures HasBom(s) ==> r == DecodeError(s[3..])
    ensures !HasBom(s) && !(|s| < 3 && s == Bom[..|s|]) ==> r == DecodeError(s)
  {
    if HasBom(s) then DecodeError(s[3..])
    else if |s| < 3 && s == Bom[..|s|] then None
    else DecodeError(s)
  }

  /** `str()` of the `json.JSONDecodeError` that `json.loads` raises for the
      decoded text of bytes that are not a JSON document: text starting with
      a byte-order mark is refused for it; for any other text the message is
      the one for text with no JSON value at its start. */
  function LoadsError(s: seq<byte>): (m: string)
    ensures HasBom(s) <==> StartsWith(m, "Unexpected UTF-8 BOM")
  {
    if HasBom(s) then
      var p := "Unexpected UTF-8 BOM";
      var m := p + " (decode using utf-8-sig): line 1 column 1 (char 0)";
      assert m[..|p|] == p;
      m
    else
      var m := "Expecting value: line 1 column 1 (char 0)";
      assert m[0] == 'E';
      m
  }

  // ---------------------------------------------------------------------------
  // Properties
  // ---------------------------------------------------------------------------

  /** The decoder reports the first malformed sequence: the bytes before it
      are well-formed. */
  lemma {:induction false} FaultIsFirst(s: seq<byte>, i: nat)
    requires i <= |s| && FaultAt(s, i).Some?
    ensures FaultAt(s[..FaultAt(s, i).value.start], i).None?
    decreases |s| - i
  {
    var f := FaultAt(s, i).value;
    if Lead(s, i).Whole? {
      FaultIsFirst(s, i + Lead(s, i).n);
      LeadOfPrefix(s, f.start, i);
    } else {
      assert |s[..f.start]| == i;
    }
  }

  /** The lead byte and the bytes it announces decide the first sequence, so
      cutting the input after them changes nothing. */
  lemma LeadOfPrefix(s: seq<byte>, m: nat, i: nat)
    requires i < m <= |s| && i + SeqLength(s[i]) <= m
    ensures Lead(s[..m], i) == Lead(s, i)
  {
    var n := SeqLength(s[i]);
    assert s[..m][i] == s[i];
    if n != 0 {
      AcceptedOfPrefix(s, m, i, n, 1);
    }
  }

  lemma {:induction false} AcceptedOfPrefix(s: seq<byte>, m: nat, i: nat, n: nat, j: nat)
    requires 1 <= j && i + j <= m <= |s| && i + n <= m
    ensures Accepted(s[..m], i, n, j) == Accepted(s, i, n, j)
    decreases m - (i + j)
  {
    if j < n {
      assert s[..m][i] == s[i] && s[..m][i + j] == s[i + j];
      if Follows(s[i], j, s[i + j]) {
        AcceptedOfPrefix(s, m, i, n, j + 1);
      }
    }
  }

  /** The same, for more bytes appended after the sequence. */
  lemma LeadOfAppend(p: seq<byte>, q: seq<byte>, i: nat)
    requires i < |p| && i + SeqLength(p[i]) <= |p|
    ensures Lead(p + q, i) == Lead(p, i)
  {
    assert (p + q)[i] == p[i];
    LeadOfPrefix(p + q, |p|, i);
    assert (p + q)[..|p|] == p;
  }

  /** Dropping bytes before index `d` moves the first sequence, not what it is. */
  lemma LeadOfDrop(s: seq<byte>, d: nat, i: nat)
    requires d + i < |s|
    ensures Lead(s[d..], i) == Lead(s, d + i)
  {
    var n := SeqLength(s[d + i]);
    assert s[d..][i] == s[d + i];
    if n != 0 {
      AcceptedOfDrop(s, d, i, n, 1);
    }
  }

  lemma {:induction false} AcceptedOfDrop(s: seq<byte>, d: nat, i: nat, n: nat, j: nat)
    requires 1 <= j && d + i + j <= |s|
    ensures Accepted(s[d..], i, n, j) == Accepted(s, d + i, n, j)
    decreases |s| - (d + i + j)
  {
    if j < n && d + i + j < |s| {
      assert s[d..][i] == s[d + i] && s[d..][i + j] == s[d + i + j];
      if Follows(s[d + i], j, s[d + i + j]) {
        AcceptedOfDrop(s, d, i, n, j + 1);
      }
    }
  }

  /** Dropping the bytes before a sequence boundary `d` only shifts the
      positions reported. */
  lemma {:induction false} FaultOfDrop(s: seq<byte>, d: nat, i: nat)
    requires d + i <= |s|
    ensures FaultAt(s[d..], i).None? <==> FaultAt(s, d + i).None?
    ensures FaultAt(s[d..], i).Some? ==>
      var g := FaultAt(s[d..], i).value;
      FaultAt(s, d + i) == Some(Fault(g.start + d, g.end + d, g.reason))
    decreases |s| - (d + i)
  {
    if d + i < |s| {
      LeadOfDrop(s, d, i);
      if Lead(s, d + i).Whole? {
        FaultOfDrop(s, d, i + Lead(s, d + i).n);
      }
    }
  }

  /** Well-formed text followed by more bytes: decoding goes on after it as
      if it had just started. */
  lemma {:induction false} WellFormedPrefix(p: seq<byte>, q: seq<byte>, i: nat)
    requires i <= |p| && FaultAt(p, i).None?
    ensures FaultAt(p + q, i) == FaultAt(p + q, |p|)
    decreases |p| - i
  {
    if i < |p| {
      LeadOfAppend(p, q, i);
      WellFormedPrefix(p, q, i + Lead(p, i).n);
    }
  }

  /** The byte-order mark is itself well-formed UTF-8 (the encoding of
      U+FEFF), so a strict decode of a file that starts with one refuses
      exactly what `utf-8-sig` refuses, at positions 3 further on. */
  lemma BomDecodesAsText(rest: seq<byte>)
    ensures DecodeError(Bom + rest).Some? <==> SigDecodeError(Bom + rest).Some?
  {
    var s := Bom + rest;
    assert Lead(Bom, 0) == Whole(3) by {
      assert Accepted(Bom, 0, 3, 2) == 3;
    }
    assert FaultAt(Bom, 0).None?;
    WellFormedPrefix(Bom, rest, 0);
    FaultOfDrop(s, 3, 0);
    assert s[..3] == Bom && s[3..] == rest;
  }

  /** Retrying a strict UTF-8 read with `utf-8-sig` succeeds only for a file
      that is a cut-off byte-order mark (one or two of its bytes); every other
      file the strict read refuses is refused again. */
  lemma SigRetryRescues(s: seq<byte>)
    ensures DecodeError(s).Some? && SigDecodeError(s).None? <==> s == [0xEF] || s == [0xEF, 0xBB]
  {
    if HasBom(s) {
      BomDecodesAsText(s[3..]);
      assert Bom + s[3..] == s;
    } else if |s| < 3 && s == Bom[..|s|] {
      if s == [0xEF] {
        assert Lead(s, 0).Broken?;
      } else if s == [0xEF, 0xBB] {
        assert Accepted(s, 0, 3, 1) == 2;
        assert Lead(s, 0).Broken?;
      } else {
        assert s == [];
      }
    } else {
      var one: seq<byte> := [0xEF];
      var two: seq<byte> := [0xEF, 0xBB];
      assert one == Bom[..1] && two == Bom[..2];
    }
  }

  // ---------------------------------------------------------------------------
  // Encoding (section 3 of RFC 3629), the partner of the decoder
  // ---------------------------------------------------------------------------

  /** A Unicode scalar value: a code point that is not a surrogate. */
  predicate IsScalar(c: int) {
    0 <= c < 0x11_0000 && !(0xD800 <= c < 0xE000)
  }

  /** The UTF-8 bytes of one scalar value. */
  function EncodeScalar(c: int): (bs: seq<byte>)
    requires IsScalar(c)
    ensures 1 <= |bs| <= 4
  {
    if c < 0x80 then [c as byte]
    else if c < 0x800 then [(0xC0 + c / 64) as byte, (0x80 + c % 64) as byte]
    else if c < 0x1_0000 then
      [(0xE0 + c / 4096) as byte, (0x80 + c / 64 % 64) as byte, (0x80 + c % 64) as byte]
    else
      [(0xF0 + c / 262144) as byte, (0x80 + c / 4096 % 64) as byte,
       (0x80 + c / 64 % 64) as byte, (0x80 + c % 64) as byte]
  }

  /** The UTF-8 bytes of a sequence of scalar values. */
  function Encode(cs: seq<int>): seq<byte>
    requires forall i :: 0 <= i < |cs| ==> IsScalar(cs[i])
  {
    if cs == [] then [] else EncodeScalar(cs[0]) + Encode(cs[1..])
  }

  /** The encoding of one scalar value is one whole sequence. */
  lemma EncodedScalarLead(c: int)
    requires IsScalar(c)
    ensures Lead(EncodeScalar(c), 0) == Whole(|EncodeScalar(c)|)
    ensures SeqLength(EncodeScalar(c)[0]) == |EncodeScalar(c)|
  {
    var bs := EncodeScalar(c);
    if |bs| == 2 {
      assert Accepted(bs, 0, 2, 1) == 2;
    } else if |bs| == 3 {
      assert Follows(bs[0], 1, bs[1]) by { ThreeByteSecond(c); }
      assert Accepted(bs, 0, 3, 2) == 3;
    } else if |bs| == 4 {
      assert Follows(bs[0], 1, bs[1]) by { FourByteSecond(c); }
      assert Accepted(bs, 0, 4, 3) == 4;
      assert Accepted(bs, 0, 4, 1) == 4;
    }
  }

  lemma ThreeByteSecond(c: int)
    requires IsScalar(c) && 0x800 <= c < 0x1_0000
    ensures c / 4096 == 0 ==> 0xA0 <= 0x80 + c / 64 % 64
    ensures c / 4096 == 0xD ==> c / 64 % 64 < 0x20
  {
  }

  lemma FourByteSecond(c: int)
    requires IsScalar(c) && 0x1_0000 <= c
    ensures c / 262144 == 0 ==> 0x90 <= 0x80 + c / 4096 % 64
    ensures c / 262144 == 4 ==> c / 4096 % 64 < 0x10
    ensures c / 262144 <= 4
  {
  }

  /** The encoding of scalar values decodes without fault from the boundary
      where it starts, whatever precedes it. */
  lemma {:induction false} EncodeFrom(x: seq<byte>, cs: seq<int>)
    requires forall i :: 0 <= i < |cs| ==> IsScalar(cs[i])
    ensures FaultAt(x + Encode(cs), |x|).None?
    decreases |cs|
  {
    if cs == [] {
      assert x + Encode(cs) == x;
    } else {
      var bs, rest := EncodeScalar(cs[0]), Encode(cs[1..]);
      var y := x + bs;
      assert x + Encode(cs) == y + rest;
      EncodedScalarLead(cs[0]);
      assert y[|x|..] == bs;
      LeadOfDrop(y, |x|, 0);
      LeadOfAppend(y, rest, |x|);
      EncodeFrom(y, cs[1..]);
    }
  }

  /** Every sequence of scalar values encodes to bytes the decoder accepts. */
  lemma EncodeWellFormed(cs: seq<int>)
    requires forall i :: 0 <= i < |cs| ==> IsScalar(cs[i])
    ensures DecodeError(Encode(cs)).None?
  {
    EncodeFrom([], cs);
    assert [] + Encode(cs) == Encode(cs);
  }

  /** A lone continuation byte is refused as a start byte. */
  lemma LoneContinuationRefused()
    ensures DecodeError([0x41, 0x80]) ==
      Some("'utf-8' codec can't decode byte"
        + (" 0x" + "80" + " in position " + "1" + ": " + "invalid start byte"))
  {
    var a: seq<byte> := [0x41, 0x80];
    assert FaultAt(a, 0) == FaultAt(a, 1);
    assert FaultAt(a, 0) == Some(Fault(1, 2, "invalid start byte"));
    assert Hex2(0x80) == "80";
    assert NatToString(1) == "1";
  }

  /** An encoded surrogate is refused at its second byte. */
  lemma SurrogateRefused()
    ensures DecodeError([0xED, 0xA0, 0x80]) ==
      Some("'utf-8' codec can't decode byte"
        + (" 0x" + "ed" + " in position " + "0" + ": " + "invalid continuation byte"))
  {
    var a: seq<byte> := [0xED, 0xA0, 0x80];
    assert Accepted(a, 0, 3, 1) == 1;
    assert FaultAt(a, 0) == Some(Fault(0, 1, "invalid continuation byte"));
    assert Hex2(0xED) == "ed";
    assert NatToString(0) == "0";
  }

  /** A sequence cut off by the end of the input is reported as a range. */
  lemma TruncatedRefused()
    ensures DecodeError([0x41, 0xE4, 0xB8]) ==
      Some("'utf-8' codec can't decode byte"
        + ("s in position " + "1" + "-" + "2" + ": " + "unexpected end of data"))
  {
    var c: seq<byte> := [0x41, 0xE4, 0xB8];
    assert Accepted(c, 1, 3, 1) == 2;
    assert FaultAt(c, 0) == FaultAt(c, 1);
    assert FaultAt(c, 0) == Some(Fault(1, 3, "unexpected end of data"));
    assert NatToString(1) == "1" && NatToString(2) == "2";
  }
}
