/** The installed-version record `data/current.json`: its directory-name rule,
    validation on read, and the atomic rewrite (launcher/core/state.py). */
module State {
  import opened Common
  import opened JsonValue
  import opened FileSystem
  import opened TextDecode
  import opened Versioning

  /** `CurrentState`: which program is installed, at which version, and the
      server it updates from. */
  datatype CurrentState = CurrentState(programId: string, version: string, serverUrl: string)

  /** All three fields are already trimmed and non-blank, as every state
      returned by `ReadCurrentState` is. */
  predicate Canonical(st: CurrentState) {
    && st.programId != [] && Strip(st.programId) == st.programId
    && st.version != [] && Strip(st.version) == st.version
    && st.serverUrl != [] && Strip(st.serverUrl) == st.serverUrl
  }

  // ---------------------------------------------------------------------------
  // version_to_dirname
  // ---------------------------------------------------------------------------

  /** The directory under `versions/` that holds a version: the trimmed text
      with every `.` turned into `_`, and a `v` in front unless it already
      starts with a lower-case `v`. */
  function VersionToDirname(version: string): (r: Result<string>)
    ensures r.Err? <==> Strip(version) == []
    ensures r.Err? ==> r.error == Exc(ValueError, "version is empty")
    ensures r.Ok? ==> |r.value| >= 1 && r.value[0] == 'v' && '.' !in r.value
    ensures r.Ok? ==> |r.value| == |Strip(version)| + (if Strip(version)[0] == 'v' then 0 else 1)
  {
    var v := Strip(version);
    if v == [] then Err(Exc(ValueError, "version is empty"))
    else
      var u := ReplaceAny(v, {'.'}, '_');
      var d := if StartsWith(u, "v") then u else "v" + u;
      assert '.' !in d by {
        forall i | 0 <= i < |d| ensures d[i] != '.' {
          if !StartsWith(u, "v") && i > 0 {
            assert d[i] == u[i - 1];
          }
        }
      }
      Ok(d)
  }

  /** Blank input is rejected under the same condition, stated with
      `str.isspace`. */
  lemma DirnameOfBlank(version: string)
    ensures VersionToDirname(version).Err? <==> IsBlank(version)
  {
    StripEmptyIff(version);
  }

  /** Turning `_` back into `.` recovers the trimmed version (after dropping
      the added `v`) whenever the version contains no `_` of its own. */
  lemma DirnameRecoversVersion(version: string)
    requires Strip(version) != [] && '_' !in Strip(version)
    ensures var w, d := Strip(version), VersionToDirname(version).value;
      if w[0] == 'v' then ReplaceAny(d, {'_'}, '.') == w
      else ReplaceAny(d[1..], {'_'}, '.') == w
  {
    var w := Strip(version);
    var d := VersionToDirname(version).value;
    var u := ReplaceAny(w, {'.'}, '_');
    if w[0] == 'v' {
      assert d == u;
    } else {
      assert d == "v" + u;
      assert d[1..] == u;
    }
  }

  /** The characters of a formatted version are digits and dots only. */
  lemma FormatHasNoUnderscore(sv: SemVer)
    requires sv.major >= 0 && sv.minor >= 0 && sv.patch >= 0
    ensures '_' !in Format(sv)
  {
    var a, b, c := NatToString(sv.major), NatToString(sv.minor), NatToString(sv.patch);
    assert Format(sv) == a + "." + b + "." + c;
    forall i | 0 <= i < |a| ensures a[i] != '_' { assert IsDigit(a[i]); }
    forall i | 0 <= i < |b| ensures b[i] != '_' { assert IsDigit(b[i]); }
    forall i | 0 <= i < |c| ensures c[i] != '_' { assert IsDigit(c[i]); }
  }

  /** Distinct versions in canonical `X.Y.Z` form get distinct directories. */
  lemma DirnameInjective(a: SemVer, b: SemVer)
    requires a.major >= 0 && a.minor >= 0 && a.patch >= 0
    requires b.major >= 0 && b.minor >= 0 && b.patch >= 0
    requires VersionToDirname(Format(a)) == VersionToDirname(Format(b))
    ensures a == b
  {
    FormatIsTrimmed(a);
    FormatIsTrimmed(b);
    FormatHasNoUnderscore(a);
    FormatHasNoUnderscore(b);
    DirnameRecoversVersion(Format(a));
    DirnameRecoversVersion(Format(b));
    ParseFormat(a);
    ParseFormat(b);
  }

  /** A trimmed version that does not start with `v` gains one. */
  lemma DirnameOfTrimmed(w: string)
    requires w != [] && Strip(w) == w && w[0] != 'v'
    ensures VersionToDirname(w) == Ok("v" + ReplaceAny(w, {'.'}, '_'))
  {
    var u := ReplaceAny(w, {'.'}, '_');
    assert u[0] != 'v';
    assert !StartsWith(u, "v");
  }

  /** A leading lower-case `v` is kept, and the rest is converted as if the
      `v` were absent: `"1.0.1"` and `"v1.0.1"` share the directory `v1_0_1`. */
  lemma DirnameOfLowerPrefixed(w: string)
    requires w != [] && Strip(w) == w && w[0] != 'v'
    ensures VersionToDirname(['v'] + w) == VersionToDirname(w)
  {
    var g := ['v'] + w;
    assert g[0] == 'v' && g[|g| - 1] == w[|w| - 1];
    assert !IsSpace(g[0]);
    StripOfTrimmed(g);
    var u := ReplaceAny(g, {'.'}, '_');
    var t := ReplaceAny(w, {'.'}, '_');
    ReplaceAnyCons('v', w, {'.'}, '_');
    assert StartsWith(u, "v");
    DirnameOfTrimmed(w);
  }

  /** An upper-case `V` is an ordinary character for the conversion. */
  lemma DirnameOfUpper(w: string)
    requires w != [] && Strip(w) == w && w[0] != 'v'
    ensures VersionToDirname(['V'] + w) == Ok("v" + (['V'] + ReplaceAny(w, {'.'}, '_')))
  {
    var g := ['V'] + w;
    assert Strip(g) == g by {
      assert g[0] == 'V' && g[|g| - 1] == w[|w| - 1];
      assert !IsSpace(g[0]);
      StripOfTrimmed(g);
    }
    var u, t := ReplaceAny(w, {'.'}, '_'), ReplaceAny(g, {'.'}, '_');
    assert VersionToDirname(g) == Ok("v" + t) by {
      DirnameOfTrimmed(g);
    }
    assert t == ['V'] + u by {
      ReplaceAnyCons('V', w, {'.'}, '_');
    }
  }

  /** The prefix test is case-sensitive: an upper-case `V` is kept and a `v`
      added in front (`"V1.0.1"` gets `vV1_0_1`). */
  lemma DirnameOfUpperPrefixed(w: string)
    requires w != [] && Strip(w) == w && w[0] != 'v'
    ensures VersionToDirname(['V'] + w).Ok? && |VersionToDirname(['V'] + w).value| > 2
    ensures VersionToDirname(['V'] + w).value[0] == 'v' && VersionToDirname(['V'] + w).value[1] == 'V'
    ensures VersionToDirname(['V'] + w) != VersionToDirname(w)
  {
    DirnameOfUpper(w);
    DirnameOfTrimmed(w);
  }

  /** Hence `"V1.0.1"` and `"1.0.1"`, which parse to the same version, are
      installed in different directories. */
  lemma SameVersionDifferentDirs(sv: SemVer)
    requires sv.major >= 0 && sv.minor >= 0 && sv.patch >= 0
    ensures ParseSemver(['V'] + Format(sv)) == ParseSemver(Format(sv))
    ensures VersionToDirname(['V'] + Format(sv)) != VersionToDirname(Format(sv))
  {
    FormatIsTrimmed(sv);
    ParsePrefixedFormat(sv);
    ParseFormat(sv);
    assert ['V'] + Format(sv) == "V" + Format(sv);
    DirnameOfUpperPrefixed(Format(sv));
  }

  // ---------------------------------------------------------------------------
  // read_current_state
  // ---------------------------------------------------------------------------

  /** `obj.get(k)` holds a string that is not blank. */
  predicate HasText(ms: seq<Member>, k: string) {
    var v := GetOr(ms, k, JNull);
    v.JString? && Strip(v.s) != []
  }

  function Required(k: string): Exc {
    Exc(ValueError, "current.json invalid: \"" + k + "\" is required (string)")
  }

  /** The checks on the parsed document, in the order the fields are tested. */
  function StateOf(doc: Json): (r: Result<CurrentState>)
    ensures doc.JObject? ==> (r.Ok? <==>
      HasText(doc.members, "program_id") && HasText(doc.members, "version")
      && HasText(doc.members, "server_url"))
    ensures !doc.JObject? ==> r.Err? && r.error.kind == AttributeError
    ensures r.Err? && doc.JObject? ==> r.error.kind == ValueError
    ensures r.Err? && doc.JObject? ==>
      r.error == Required(if !HasText(doc.members, "program_id") then "program_id"
                          else if !HasText(doc.members, "version") then "version"
                          else "server_url")
    ensures r.Ok? ==> Canonical(r.value)
    ensures r.Ok? ==>
      && r.value.programId == Strip(GetOr(doc.members, "program_id", JNull).s)
      && r.value.version == Strip(GetOr(doc.members, "version", JNull).s)
      && r.value.serverUrl == Strip(GetOr(doc.members, "server_url", JNull).s)
  {
    var ms :- AsObject(doc);
    if !HasText(ms, "program_id") then Err(Required("program_id"))
    else if !HasText(ms, "version") then Err(Required("version"))
    else if !HasText(ms, "server_url") then Err(Required("server_url"))
    else
      var st := CurrentState(Strip(GetOr(ms, "program_id", JNull).s),
                             Strip(GetOr(ms, "version", JNull).s),
                             Strip(GetOr(ms, "server_url", JNull).s));
      StripIdempotent(GetOr(ms, "program_id", JNull).s);
      StripIdempotent(GetOr(ms, "version", JNull).s);
      StripIdempotent(GetOr(ms, "server_url", JNull).s);
      Ok(st)
  }

  /** `read_current_state(p)`: a missing file raises `FileNotFoundError`;
      bytes that are not UTF-8 raise `UnicodeDecodeError`, and text that is
      not JSON `JSONDecodeError`; the document is then checked by `StateOf`. */
  function ReadCurrentState(fs: Tree, p: Path): (r: Result<CurrentState>)
    ensures p !in fs ==> r == Err(Exc(FileNotFound, "current.json not found: " + PathText(p)))
    ensures r.Ok? <==> IsFile(fs, p) && fs[p].content.Doc? && StateOf(fs[p].content.json).Ok?
    ensures IsFile(fs, p) && fs[p].content.Blob? ==>
      var bs := fs[p].content.bytes;
      && r.Err? && r.error.kind in {UnicodeDecode, JsonDecode}
      && (r.error.kind == UnicodeDecode <==> DecodeError(bs).Some?)
      && (DecodeError(bs).Some? ==> r.error.msg == DecodeError(bs).value)
      && (DecodeError(bs).None? ==> (HasBom(bs) <==> StartsWith(r.error.msg, "Unexpected UTF-8 BOM")))
    ensures IsFile(fs, p) && fs[p].content.Doc? ==> r == StateOf(fs[p].content.json)
  {
    if p !in fs then Err(Exc(FileNotFound, "current.json not found: " + PathText(p)))
    else if fs[p].Dir? then Err(Exc(OSError, "[Errno 13] Permission denied: " + PathRepr(p)))
    else match fs[p].content
      case Blob(bs) =>
        if DecodeError(bs).Some? then Err(Exc(UnicodeDecode, DecodeError(bs).value))
        else Err(Exc(JsonDecode, LoadsError(bs)))
      case Doc(j) => StateOf(j)
  }

  // ---------------------------------------------------------------------------
  // write_current_state
  // ---------------------------------------------------------------------------

  /** The object `write_current_state` serialises. */
  function Record(st: CurrentState): Json {
    JObject([Member("version", JString(st.version)),
             Member("program_id", JString(st.programId)),
             Member("server_url", JString(st.serverUrl))])
  }

  /** Reading back a written record gives the same state. */
  lemma StateOfRecord(st: CurrentState)
    requires Canonical(st)
    ensures StateOf(Record(st)) == Ok(st)
  {
    var ms := Record(st).members;
    assert GetOr(ms, "program_id", JNull) == JString(st.programId)
        && GetOr(ms, "version", JNull) == JString(st.version)
        && GetOr(ms, "server_url", JNull) == JString(st.serverUrl) by {
      RecordFields(st);
    }
  }

  lemma RecordFields(st: CurrentState)
    ensures var ms := Record(st).members;
      && GetOr(ms, "version", JNull) == JString(st.version)
      && GetOr(ms, "program_id", JNull) == JString(st.programId)
      && GetOr(ms, "server_url", JNull) == JString(st.serverUrl)
  {
    var ms := Record(st).members;
    assert GetOr(ms, "version", JNull) == JString(st.version) by {
      GetAt(ms, 0);
    }
    assert GetOr(ms, "program_id", JNull) == JString(st.programId) by {
      assert |ms[0].key| == 7;
      GetAt(ms, 1);
    }
    assert GetOr(ms, "server_url", JNull) == JString(st.serverUrl) by {
      assert |ms[0].key| == 7 && ms[1].key[0] == 'p';
      GetAt(ms, 2);
    }
  }

  /** The round trip through the disk: once `p` holds the record of a
      canonical state, `read_current_state(p)` returns that state. */
  lemma ReadAfterWrite(fs: Tree, p: Path, st: CurrentState)
    requires Canonical(st) && p in fs && fs[p] == File(Doc(Record(st)))
    ensures ReadCurrentState(fs, p) == Ok(st)
  {
    StateOfRecord(st);
  }

  /** `p` holds its old entry (or is still absent), or the new content. */
  ghost predicate OldOrNew(t: Tree, o: Tree, p: Path, c: Content) {
    (p in t && t[p] == File(c)) || (p in o && p in t && t[p] == o[p]) || (p !in o && p !in t)
  }

  /** Every state of `h` from index `from` on satisfies `OldOrNew`. */
  ghost predicate AlwaysOldOrNew(h: seq<Tree>, from: nat, o: Tree, p: Path, c: Content) {
    forall i :: from <= i < |h| ==> OldOrNew(h[i], o, p, c)
  }

  lemma AlwaysOldOrNewExtend(h: seq<Tree>, from: nat, o: Tree, p: Path, c: Content, t: Tree)
    requires from <= |h| && AlwaysOldOrNew(h, from, o, p, c) && OldOrNew(t, o, p, c)
    ensures AlwaysOldOrNew(h + [t], from, o, p, c)
  {
    forall i | from <= i < |h| + 1 ensures OldOrNew((h + [t])[i], o, p, c) {
      if i < |h| {
        assert (h + [t])[i] == h[i];
      }
    }
  }

  /** Creating the directories above `p` leaves `p` itself alone. */
  lemma WithDirsKeeps(fs: Tree, d: Path, p: Path)
    requires |p| > |d|
    ensures p in WithDirs(fs, d) <==> p in fs
    ensures p in fs ==> WithDirs(fs, d)[p] == fs[p]
  {
    assert p !in Prefixes(d);
  }

  /** After `src.replace(dst)`, `dst` holds what `src` held, and a sibling
      `src` of the same depth is gone. */
  lemma ReplacedMoves(fs: Tree, locked: set<Path>, src: Path, dst: Path)
    requires ReplaceError(fs, locked, src, dst).None?
    ensures src in fs && dst in Replaced(fs, src, dst) && Replaced(fs, src, dst)[dst] == fs[src]
    ensures |src| == |dst| ==> src !in Replaced(fs, src, dst)
  {
    var g := fs - {dst};
    assert src in g;
    RenamedAt(g, src, dst, dst);
    assert dst[|dst|..] == [] && src + [] == src;
    RenamedAt(g, src, dst, src);
  }

  /** The sibling written first: `p.with_suffix(".tmp")`. */
  function TmpPath(p: Path): (q: Path)
    requires p != []
    ensures q != [] && Parent(q) == Parent(p) && |q| == |p|
  {
    WithSuffix(p, ".tmp")
  }

  /** The first two steps of `write_current_state`: create the parent
      directories and write the record to the `.tmp` sibling. */
  method StageRecord(disk: Disk, p: Path, c: Content) returns (e: Option<Exc>)
    requires disk.Valid() && p != []
    modifies disk
    ensures disk.Valid()
    ensures |disk.history| >= |old(disk.history)| && disk.history[..|old(disk.history)|] == old(disk.history)
    ensures AlwaysOldOrNew(disk.history, |old(disk.history)|, old(disk.fs), p, c)
    ensures e.None? ==> IsFile(disk.fs, TmpPath(p)) && disk.fs[TmpPath(p)] == File(c)
    ensures Keeps(old(disk.fs), disk.fs, {p, TmpPath(p)})
  {
    ghost var o, h0 := disk.fs, disk.history;
    e := disk.Mkdirs(Parent(p));
    if e.Some? {
      return;
    }
    WithDirsKeeps(o, Parent(p), p);
    ghost var s1, h1 := disk.fs, disk.history;
    assert h1 == h0 + [disk.fs];
    assert h1[..|h0|] == h0;
    AlwaysOldOrNewExtend(h0, |h0|, o, p, c, disk.fs);
    var tmp := TmpPath(p);
    e := disk.Write(tmp, c);
    if e.Some? {
      return;
    }
    KeepsTrans(o, s1, disk.fs, {}, {tmp}, {p, TmpPath(p)});
    assert disk.history == h1 + [disk.fs];
    assert disk.history[..|h0|] == h0;
    AlwaysOldOrNewExtend(h1, |h0|, o, p, c, disk.fs);
  }

  /** The write-then-replace pattern shared by the launcher's JSON stores:
      create the parent directories, write `c` to the `.tmp` sibling, then
      replace `p` with it. At every step `p` holds either its old entry or
      the complete new content. */
  method WriteReplacing(disk: Disk, p: Path, c: Content) returns (e: Option<Exc>)
    requires disk.Valid() && p != []
    modifies disk
    ensures disk.Valid()
    ensures |disk.history| >= |old(disk.history)| && disk.history[..|old(disk.history)|] == old(disk.history)
    ensures AlwaysOldOrNew(disk.history, |old(disk.history)|, old(disk.fs), p, c)
    ensures e.None? ==> p in disk.fs && disk.fs[p] == File(c)
    ensures e.None? && TmpPath(p) != p ==> TmpPath(p) !in disk.fs
    ensures Keeps(old(disk.fs), disk.fs, {p, TmpPath(p)})
  {
    ghost var o, h0 := disk.fs, disk.history;
    e := StageRecord(disk, p, c);
    if e.Some? {
      return;
    }
    var tmp := TmpPath(p);
    ghost var before, h2 := disk.fs, disk.history;
    e := disk.Replace(tmp, p);
    if e.Some? {
      return;
    }
    ReplacedMoves(before, disk.locked, tmp, p);
    KeepsTrans(o, before, disk.fs, {p, tmp}, {tmp, p}, {p, tmp});
    assert disk.history == h2 + [disk.fs];
    assert disk.history[..|h0|] == h0;
    assert OldOrNew(disk.fs, o, p, c) by {
      assert p in disk.fs && disk.fs[p] == File(c);
    }
    AlwaysOldOrNewExtend(h2, |h0|, o, p, c, disk.fs);
  }

  /** `write_current_state(p, st)`: the record of `st`, written with
      `WriteReplacing`. */
  method WriteCurrentState(disk: Disk, p: Path, st: CurrentState) returns (e: Option<Exc>)
    requires disk.Valid() && p != []
    modifies disk
    ensures disk.Valid()
    ensures |disk.history| >= |old(disk.history)| && disk.history[..|old(disk.history)|] == old(disk.history)
    ensures AlwaysOldOrNew(disk.history, |old(disk.history)|, old(disk.fs), p, Doc(Record(st)))
    ensures e.None? ==> p in disk.fs && disk.fs[p] == File(Doc(Record(st)))
    ensures e.None? && TmpPath(p) != p ==> TmpPath(p) !in disk.fs
    ensures e.None? && Canonical(st) ==> ReadCurrentState(disk.fs, p) == Ok(st)
    ensures Keeps(old(disk.fs), disk.fs, {p, TmpPath(p)})
  {
    e := WriteReplacing(disk, p, Doc(Record(st)));
    if e.None? && Canonical(st) {
      ReadAfterWrite(disk.fs, p, st);
    }
  }
}
