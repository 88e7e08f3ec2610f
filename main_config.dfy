/** The configuration helpers of `main.py`: reading `runtime/app.json` for
    the single-instance guard, and the key map built from the enabled site
    configurations. */
module MainConfig {
  import opened Common
  import opened JsonValue
  import opened Dicts
  import opened FileSystem
  import opened TextDecode
  import opened AppConfigLoader

  // ---------------------------------------------------------------------------
  // _read_runtime_app_json
  // ---------------------------------------------------------------------------

  /** `base_path / "runtime" / "app.json"`. */
  function RuntimeAppJson(base: Path): Path {
    base + ["runtime", "app.json"]
  }

  const NotFoundPrefix: string := "runtime/app.json not found: "

  /** "runtime/app.json JSON parsing failed: ". */
  const ParseFailedPrefix: string := "runtime/app.json JSON \U{D30C}\U{C2F1} \U{C2E4}\U{D328}: "

  /** "the top level of runtime/app.json must be an object(dict)." */
  const NotObjectMessage: string :=
    "runtime/app.json \U{CD5C}\U{C0C1}\U{C704} \U{AD6C}\U{C870}\U{B294} object(dict)\U{C5EC}\U{C57C} \U{D569}\U{B2C8}\U{B2E4}."

  /** The message `json.loads("")` raises: what the text of a cut-off
      byte-order mark, decoded with `utf-8-sig`, gives. */
  const EmptyTextMessage: string := "Expecting value: line 1 column 1 (char 0)"

  /** `_read_runtime_app_json(base_path)`: the top-level object of the file.
      A missing file raises `FileNotFoundError`; a directory fails both reads
      with an `OSError`. Bytes the strict UTF-8 read refuses are read again
      with `utf-8-sig`, and a `UnicodeDecodeError` of that second read
      escapes as it is; text that is not JSON, and a document that is not an
      object, raise `ValueError`. A byte-order mark does not fail the strict
      read, so a file starting with one reaches `json.loads`, which refuses
      it. */
  function ReadRuntimeAppJson(fs: Tree, base: Path): (r: Result<seq<Member>>)
    ensures var p := RuntimeAppJson(base);
      && (p !in fs ==> r == Err(Exc(FileNotFound, NotFoundPrefix + PathText(p))))
      && (r.Ok? <==> IsFile(fs, p) && fs[p].content.Doc? && fs[p].content.json.JObject?)
      && (r.Ok? ==> r.value == fs[p].content.json.members)
      && (IsDir(fs, p) ==> r.Err? && r.error.kind == OSError)
      && (IsFile(fs, p) && r.Err? ==> IsValueError(r.error.kind) && r.error.kind != JsonDecode)
    ensures var p := RuntimeAppJson(base);
      IsFile(fs, p) && fs[p].content.Blob? ==>
      var bs := fs[p].content.bytes;
      && r.Err?
      && (r.error.kind == UnicodeDecode <==> DecodeError(bs).Some? && SigDecodeError(bs).Some?)
      && (r.error.kind == UnicodeDecode ==> r.error.msg == SigDecodeError(bs).value)
      && (r.error.kind == ValueError ==> StartsWith(r.error.msg, ParseFailedPrefix))
      && (HasBom(bs) && DecodeError(bs).None? ==>
            StartsWith(r.error.msg, ParseFailedPrefix + "Unexpected UTF-8 BOM"))
  {
    var p := RuntimeAppJson(base);
    if p !in fs then Err(Exc(FileNotFound, NotFoundPrefix + PathText(p)))
    else match fs[p]
      case Dir => Err(Exc(OSError, "[Errno 13] Permission denied: " + PathRepr(p)))
      case File(Blob(bs)) =>
        if DecodeError(bs).None? then ParseFailed(LoadsError(bs))
        else if SigDecodeError(bs).Some? then Err(Exc(UnicodeDecode, SigDecodeError(bs).value))
        else ParseFailed(EmptyTextMessage)
      case File(Doc(j)) =>
        if j.JObject? then Ok(j.members) else Err(Exc(ValueError, NotObjectMessage))
  }

  /** The `ValueError` that wraps the message of a failed `json.loads`. */
  function ParseFailed(m: string): (r: Result<seq<Member>>)
    ensures r.Err? && r.error.kind == ValueError
    ensures StartsWith(r.error.msg, ParseFailedPrefix)
    ensures StartsWith(m, "Unexpected UTF-8 BOM") ==>
      StartsWith(r.error.msg, ParseFailedPrefix + "Unexpected UTF-8 BOM")
  {
    var t := ParseFailedPrefix + m;
    assert t[..|ParseFailedPrefix|] == ParseFailedPrefix;
    assert StartsWith(m, "Unexpected UTF-8 BOM") ==>
      t[..|ParseFailedPrefix| + 20] == ParseFailedPrefix + m[..20];
    Err(Exc(ValueError, t))
  }

  // ---------------------------------------------------------------------------
  // _get_allow_multi_instance, _get_single_instance_key
  // ---------------------------------------------------------------------------

  /** `bool(runtime_json.get("allow_multi_instance", False))`: Python
      truthiness, so the string `"false"` allows several instances and only a
      missing key, `false`, `null`, `0` or an empty value forbids them. */
  function AllowMultiInstance(ms: seq<Member>): (r: bool)
    ensures Get(ms, "allow_multi_instance").None? ==> !r
    ensures Get(ms, "allow_multi_instance").Some? ==> (r <==> Truthy(Get(ms, "allow_multi_instance").value))
    ensures Get(ms, "allow_multi_instance") == Some(JBool(true)) ==> r
    ensures Get(ms, "allow_multi_instance") == Some(JString("false")) ==> r
  {
    Truthy(GetOr(ms, "allow_multi_instance", JBool(false)))
  }

  const DefaultInstanceKey: string := "my_pyside_app"

  /** The default key has no whitespace at either end. */
  lemma DefaultKeyEnds()
    ensures var t := DefaultInstanceKey; t != [] && !IsSpace(t[0]) && !IsSpace(t[|t| - 1])
  {
    var t := DefaultInstanceKey;
    assert t[0] == 'm' && t[|t| - 1] == 'p';
  }

  /** `t.strip() or fallback`, for a fallback that is itself trimmed text. */
  function StripOr(t: string, fallback: string): (r: string)
    requires fallback != [] && !IsSpace(fallback[0]) && !IsSpace(fallback[|fallback| - 1])
    ensures r != [] && Strip(r) == r
    ensures Strip(t) != [] ==> r == Strip(t)
    ensures Strip(t) == [] ==> r == fallback
    ensures t == fallback ==> r == fallback
  {
    StripIdempotent(t);
    StripOfTrimmed(fallback);
    if Strip(t) == [] then fallback else Strip(t)
  }

  /** `str(runtime_json.get("instance_key", "my_pyside_app")).strip() or
      "my_pyside_app"`: never blank and always trimmed. */
  function SingleInstanceKey(ms: seq<Member>): (r: string)
    ensures r != [] && !IsSpace(r[0]) && !IsSpace(r[|r| - 1])
    ensures Get(ms, "instance_key").None? ==> r == DefaultInstanceKey
    ensures Get(ms, "instance_key").Some? ==> r == StripOr(PyStr(Get(ms, "instance_key").value), DefaultInstanceKey)
  {
    DefaultKeyEnds();
    var r := StripOr(PyStr(GetOr(ms, "instance_key", JString(DefaultInstanceKey))), DefaultInstanceKey);
    r
  }

  /** An explicit `null` is not the default: `str(None)` is `"None"`, which
      becomes the lock key. */
  lemma NullInstanceKey(ms: seq<Member>)
    requires Get(ms, "instance_key") == Some(JNull)
    ensures SingleInstanceKey(ms) == "None"
  {
    StripOfTrimmed("None");
  }

  /** How `main()` starts, decided by the first `try` block. */
  datatype Startup =
    | ConfigFailed(message: string)   // the error dialog, then exit code 1
    | MultiInstance                   // no lock taken
    | SingleInstance(lockKey: string) // the lock file `<lockKey>.lock` is tried

  /** The first phase of `main()`: read the runtime file, then take the lock
      unless several instances are allowed. */
  function StartupOf(fs: Tree, base: Path): (r: Startup)
    ensures r.ConfigFailed? <==> ReadRuntimeAppJson(fs, base).Err?
    ensures r.ConfigFailed? ==> r.message == ReadRuntimeAppJson(fs, base).error.msg
    ensures r.SingleInstance? ==> r.lockKey != [] && !AllowMultiInstance(ReadRuntimeAppJson(fs, base).value)
    ensures RuntimeAppJson(base) !in fs ==> r.ConfigFailed?
    ensures ReadRuntimeAppJson(fs, base).Ok? ==>
      var v := ReadRuntimeAppJson(fs, base).value;
      r == if AllowMultiInstance(v) then MultiInstance else SingleInstance(SingleInstanceKey(v))
  {
    match ReadRuntimeAppJson(fs, base)
    case Err(e) => ConfigFailed(e.msg)
    case Ok(ms) =>
      if AllowMultiInstance(ms) then MultiInstance else SingleInstance(SingleInstanceKey(ms))
  }

  // ---------------------------------------------------------------------------
  // site_configs_by_key
  // ---------------------------------------------------------------------------

  /** `str(d.get("key") or "").strip()` of a site configuration. */
  function KeyField(ms: seq<Member>): string {
    FieldText(ms, "key")
  }

  /** Configuration `d` is a dict whose key, as `key` reads it, is `k`. */
  predicate KeyedAs(d: Json, key: seq<Member> -> string, k: string) {
    d.JObject? && key(d.members) == k
  }

  /** The dict the loop over the site configurations builds, for a key
      reader `key`: `by_key[k] = d` for every configuration whose key is not
      blank, in order. A configuration that is not a dict makes `d.get`
      raise `AttributeError`. */
  function ByKeyWith(cs: seq<Json>, key: seq<Member> -> string): Result<Dict<Json>>
    decreases |cs|
  {
    if cs == [] then Ok([])
    else
      var d := cs[|cs| - 1];
      match ByKeyWith(cs[..|cs| - 1], key)
      case Err(e) => Err(e)
      case Ok(acc) =>
        if !d.JObject? then Err(NoGet(d))
        else if key(d.members) == "" then Ok(acc)
        else Ok(Put(acc, key(d.members), d))
  }

  /** `site_configs_by_key` as `_bootstrap_runtime_config` builds it. */
  function ByKey(cs: seq<Json>): Result<Dict<Json>> {
    ByKeyWith(cs, KeyField)
  }

  /** The loop raises exactly when some configuration is not a dict. */
  lemma {:induction false} ByKeyErrIff(cs: seq<Json>, key: seq<Member> -> string)
    ensures ByKeyWith(cs, key).Err? <==> exists i :: 0 <= i < |cs| && !cs[i].JObject?
    ensures ByKeyWith(cs, key).Err? ==> ByKeyWith(cs, key).error.kind == AttributeError
    decreases |cs|
  {
    if cs != [] {
      var init := cs[..|cs| - 1];
      ByKeyErrIff(init, key);
      assert forall i :: 0 <= i < |init| ==> init[i] == cs[i];
      if exists i :: 0 <= i < |cs| && !cs[i].JObject? {
        var i :| 0 <= i < |cs| && !cs[i].JObject?;
        if i < |init| {
          assert !init[i].JObject?;
        }
      }
    }
  }

  /** The built dict has distinct, non-blank keys, and every value is one of
      the configurations. */
  lemma {:induction false} ByKeyClean(cs: seq<Json>, key: seq<Member> -> string)
    requires ByKeyWith(cs, key).Ok?
    ensures DistinctKeys(ByKeyWith(cs, key).value)
    ensures forall e :: e in ByKeyWith(cs, key).value ==> e.0 != [] && e.1 in cs
    decreases |cs|
  {
    if cs != [] {
      var init := cs[..|cs| - 1];
      var d := cs[|cs| - 1];
      ByKeyClean(init, key);
      var acc := ByKeyWith(init, key).value;
      assert forall x :: x in init ==> x in cs;
      if key(d.members) != "" {
        PutKeepsDistinct(acc, key(d.members), d);
        PutEntries(acc, key(d.members), d);
      }
    }
  }

  /** Once the loop has raised on a prefix, the whole loop raises the same error. */
  lemma {:induction false} ByKeyErrPersists(cs: seq<Json>, key: seq<Member> -> string, n: nat)
    requires n <= |cs| && ByKeyWith(cs[..n], key).Err?
    ensures ByKeyWith(cs, key) == ByKeyWith(cs[..n], key)
    decreases |cs| - n
  {
    if n < |cs| {
      assert cs[..n + 1][..n] == cs[..n];
      ByKeyErrPersists(cs, key, n + 1);
    } else {
      assert cs[..n] == cs;
    }
  }

  /** The value under a non-blank key is the LAST configuration carrying it. */
  lemma {:induction false} ByKeyLast(cs: seq<Json>, key: seq<Member> -> string, k: string, i: int)
    requires ByKeyWith(cs, key).Ok? && k != []
    requires 0 <= i < |cs| && KeyedAs(cs[i], key, k)
    requires forall j :: i < j < |cs| ==> !KeyedAs(cs[j], key, k)
    ensures Find(ByKeyWith(cs, key).value, k) == Some(cs[i])
    decreases |cs|
  {
    var init := cs[..|cs| - 1];
    if i < |cs| - 1 {
      assert forall j :: i < j < |init| ==> init[j] == cs[j];
      assert init[i] == cs[i];
      ByKeyLast(init, key, k, i);
      assert !KeyedAs(cs[|cs| - 1], key, k);
    }
  }

  /** A key no configuration carries, and the blank key, are absent. */
  lemma {:induction false} ByKeyAbsent(cs: seq<Json>, key: seq<Member> -> string, k: string)
    requires ByKeyWith(cs, key).Ok?
    requires k == [] || forall j :: 0 <= j < |cs| ==> !KeyedAs(cs[j], key, k)
    ensures Find(ByKeyWith(cs, key).value, k) == None
    decreases |cs|
  {
    if k == [] {
      ByKeyClean(cs, key);
    } else if cs != [] {
      var init := cs[..|cs| - 1];
      assert forall j :: 0 <= j < |init| ==> init[j] == cs[j];
      ByKeyAbsent(init, key, k);
      assert !KeyedAs(cs[|cs| - 1], key, k);
    }
  }

  /** What the built map holds, for the key reader of `main.py`: under each
      non-blank key the last configuration with that key; nothing under the
      blank key or a key no configuration carries; and an error exactly when
      some configuration is not a dict. */
  lemma SiteConfigsByKeyMeaning(cs: seq<Json>, k: string)
    ensures ByKey(cs).Err? <==> exists i :: 0 <= i < |cs| && !cs[i].JObject?
    ensures ByKey(cs).Ok? && (k == [] || forall j :: 0 <= j < |cs| ==> !KeyedAs(cs[j], KeyField, k)) ==>
      Find(ByKey(cs).value, k) == None
    ensures forall i ::
      (&& ByKey(cs).Ok? && k != [] && 0 <= i < |cs| && KeyedAs(cs[i], KeyField, k)
       && (forall j :: i < j < |cs| ==> !KeyedAs(cs[j], KeyField, k)))
      ==> Find(ByKey(cs).value, k) == Some(cs[i])
  {
    ByKeyErrIff(cs, KeyField);
    if ByKey(cs).Ok? {
      if k == [] || forall j :: 0 <= j < |cs| ==> !KeyedAs(cs[j], KeyField, k) {
        ByKeyAbsent(cs, KeyField, k);
      }
      forall i | k != [] && 0 <= i < |cs| && KeyedAs(cs[i], KeyField, k)
        && (forall j :: i < j < |cs| ==> !KeyedAs(cs[j], KeyField, k))
        ensures Find(ByKey(cs).value, k) == Some(cs[i])
      {
        ByKeyLast(cs, KeyField, k, i);
      }
    }
  }

  /** The `for d in (site_configs or [])` loop of `_bootstrap_runtime_config`. */
  method SiteConfigsByKey(configs: seq<Json>) returns (r: Result<Dict<Json>>)
    ensures r == ByKey(configs)
  {
    var byKey: Dict<Json> := [];
    var i := 0;
    while i < |configs|
      invariant 0 <= i <= |configs|
      invariant ByKey(configs[..i]) == Ok(byKey)
    {
      var d := configs[i];
      assert configs[..i + 1][..i] == configs[..i];
      if !d.JObject? {
        ByKeyErrPersists(configs, KeyField, i + 1);
        return Err(NoGet(d));
      }
      var k := KeyField(d.members);
      if k != "" {
        byKey := Put(byKey, k, d);
      }
      i := i + 1;
    }
    assert configs[..i] == configs;
    r := Ok(byKey);
  }
}
