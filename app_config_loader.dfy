/** `src/utils/app_config_loader.py`: reads `runtime/app.json` (the server,
    the list of sites and which of them are in use) and the per-site JSON
    files it points to. */
module AppConfigLoader {
  import opened Common
  import opened JsonValue
  import opened FileSystem
  import opened TextDecode

  /** `SiteMeta`: a site's key and the path of its configuration file. */
  datatype SiteMeta = SiteMeta(key: string, configPath: string)

  /** `AppConfig`. */
  datatype AppConfig = AppConfig(
    serverUrl: string,
    serverName: string,
    siteListUse: seq<string>,
    siteList: seq<SiteMeta>)

  /** `AppConfigLoader(app_json_path)`, with the path already resolved. The
      loader never changes after construction, so it is a value here. */
  datatype Loader = Loader(appJsonPath: Path) {
    /** `runtime_dir`: the directory holding `app.json`. */
    function RuntimeDir(): Path {
      if appJsonPath == [] then [] else Parent(appJsonPath)
    }
  }

  // ---------------------------------------------------------------------------
  // _read_json
  // ---------------------------------------------------------------------------

  /** The start of the `FileNotFoundError` message ("the settings file does
      not exist: "). */
  const MissingPrefix: string := "\U{C124}\U{C815} \U{D30C}\U{C77C}\U{C774} \U{C5C6}\U{C2B5}\U{B2C8}\U{B2E4}: "

  /** `_read_json(path)`: whatever JSON value the file holds. A missing file
      raises `FileNotFoundError`; opening a directory raises an `OSError`;
      bytes that are not UTF-8 raise `UnicodeDecodeError`, and text that is
      not JSON `JSONDecodeError`. */
  function ReadJson(fs: Tree, p: Path): (r: Result<Json>)
    ensures r.Ok? <==> IsFile(fs, p) && fs[p].content.Doc?
    ensures r.Ok? ==> r.value == fs[p].content.json
    ensures p !in fs ==> r == Err(Exc(FileNotFound, MissingPrefix + PathText(p)))
    ensures r.Err? && p in fs ==> r.error.kind in {OSError, JsonDecode, UnicodeDecode}
    ensures IsDir(fs, p) ==> r.Err? && r.error.kind == OSError
    ensures IsFile(fs, p) && fs[p].content.Blob? ==>
      var bs := fs[p].content.bytes;
      && r.Err?
      && (r.error.kind == UnicodeDecode <==> DecodeError(bs).Some?)
      && (DecodeError(bs).Some? ==> r.error.msg == DecodeError(bs).value)
      && (DecodeError(bs).None? ==> (HasBom(bs) <==> StartsWith(r.error.msg, "Unexpected UTF-8 BOM")))
  {
    if p !in fs then Err(Exc(FileNotFound, MissingPrefix + PathText(p)))
    else match fs[p]
      case Dir => Err(Exc(OSError, "[Errno 13] Permission denied: " + PathRepr(p)))
      case File(Blob(bs)) =>
        if DecodeError(bs).Some? then Err(Exc(UnicodeDecode, DecodeError(bs).value))
        else Err(Exc(JsonDecode, LoadsError(bs)))
      case File(Doc(j)) => Ok(j)
  }

  // ---------------------------------------------------------------------------
  // load_app_config
  // ---------------------------------------------------------------------------

  /** `str(d.get(k) or "").strip()`. */
  function FieldText(ms: seq<Member>, k: string): (r: string)
    ensures Strip(r) == r
  {
    TextOf(Or(GetOr(ms, k, JNull), JString("")))
  }

  /** `str(v).strip()`. */
  function TextOf(v: Json): (r: string)
    ensures Strip(r) == r
  {
    StripIdempotent(PyStr(v));
    Strip(PyStr(v))
  }

  /** The `SiteMeta` built from one entry of `site_list`. */
  function MetaOf(ms: seq<Member>): SiteMeta {
    SiteMeta(FieldText(ms, "key"), FieldText(ms, "config_path"))
  }

  /** A loop that turns every entry of a list into a record with `f`,
      calling `.get` on it first: an entry that is not a dict raises
      `AttributeError` and ends the loop. */
  function MapDicts<T>(items: seq<Json>, f: seq<Member> -> T): Result<seq<T>> {
    if items == [] then Ok([])
    else
      var pre :- MapDicts(items[..|items| - 1], f);
      var ms :- AsObject(items[|items| - 1]);
      Ok(pre + [f(ms)])
  }

  /** One more entry: the loop raises on it unless it is a dict. */
  lemma MapDictsStep<T>(items: seq<Json>, f: seq<Member> -> T)
    requires items != []
    ensures var pre, last := MapDicts(items[..|items| - 1], f), items[|items| - 1];
      MapDicts(items, f) ==
        if pre.Err? then pre
        else if !last.JObject? then Err(NoGet(last))
        else Ok(pre.value + [f(last.members)])
  {
  }

  /** The loop succeeds exactly when every entry is a dict; otherwise it
      raises `AttributeError`. */
  lemma {:induction false} MapDictsOk<T>(items: seq<Json>, f: seq<Member> -> T)
    ensures MapDicts(items, f).Ok? <==> forall i :: 0 <= i < |items| ==> items[i].JObject?
    ensures MapDicts(items, f).Err? ==> MapDicts(items, f).error.kind == AttributeError
  {
    if items != [] {
      var n := |items| - 1;
      MapDictsOk(items[..n], f);
      MapDictsStep(items, f);
      assert forall i :: 0 <= i < n ==> items[..n][i] == items[i];
    }
  }

  /** On success the loop builds one record per entry, in order. */
  lemma {:induction false} MapDictsValues<T>(items: seq<Json>, f: seq<Member> -> T)
    requires MapDicts(items, f).Ok?
    ensures |MapDicts(items, f).value| == |items|
    ensures forall i :: 0 <= i < |items| ==> items[i].JObject? && MapDicts(items, f).value[i] == f(items[i].members)
  {
    if items != [] {
      var n := |items| - 1;
      var pre := items[..n];
      MapDictsStep(items, f);
      MapDictsValues(pre, f);
      assert forall i :: 0 <= i < n ==> pre[i] == items[i];
    }
  }

  /** Once the loop has raised on a prefix, it raises the same error on the
      whole list. */
  lemma {:induction false} MapDictsErrPersists<T>(items: seq<Json>, f: seq<Member> -> T, j: nat)
    requires j <= |items| && MapDicts(items[..j], f).Err?
    ensures MapDicts(items, f) == MapDicts(items[..j], f)
    decreases |items| - j
  {
    if j < |items| {
      var n := |items| - 1;
      assert items[..n][..j] == items[..j];
      MapDictsErrPersists(items[..n], f, j);
      MapDictsStep(items, f);
    } else {
      assert items[..j] == items;
    }
  }

  /** `[str(x).strip() for x in ...]`. */
  function UseList(xs: seq<Json>): (r: seq<string>)
    ensures |r| == |xs| && forall i :: 0 <= i < |xs| ==> Strip(r[i]) == r[i]
  {
    seq(|xs|, i requires 0 <= i < |xs| => TextOf(xs[i]))
  }

  /** `data.get("site_list", []) or []`, iterated. */
  function SiteListItems(data: seq<Member>): Result<seq<Json>> {
    Iterate(Or(GetOr(data, "site_list", JArray([])), JArray([])))
  }

  /** `data.get("site_list_use") or []`, iterated. */
  function UseItems(data: seq<Member>): Result<seq<Json>> {
    Iterate(Or(GetOr(data, "site_list_use", JNull), JArray([])))
  }

  /** `load_app_config()` on the parsed document. It raises unless the
      document is an object whose `site_list` and `site_list_use` can be
      iterated and whose `site_list` entries are all dicts; what it returns
      is trimmed throughout. */
  function AppConfigOf(doc: Json): (r: Result<AppConfig>)
    ensures (r.Ok? <==> (doc.JObject? && SiteListItems(doc.members).Ok?
      && (forall i :: 0 <= i < |SiteListItems(doc.members).value| ==> SiteListItems(doc.members).value[i].JObject?)
      && UseItems(doc.members).Ok?))
    ensures r.Ok? ==> Trimmed(r.value)
    ensures r.Ok? ==> |r.value.siteList| == |SiteListItems(doc.members).value|
  {
    var data :- AsObject(doc);
    var items :- SiteListItems(data);
    MapDictsOk(items, MetaOf);
    var metas :- MapDicts(items, MetaOf);
    var use :- UseItems(data);
    MapDictsValues(items, MetaOf);
    Ok(AppConfig(FieldText(data, "server_url"), FieldText(data, "server_name"), UseList(use), metas))
  }

  /** `load_app_config()`. */
  function LoadedAppConfig(fs: Tree, loader: Loader): Result<AppConfig> {
    var doc :- ReadJson(fs, loader.appJsonPath);
    AppConfigOf(doc)
  }

  /** The loop over `site_list`. */
  method SiteList(items: seq<Json>) returns (r: Result<seq<SiteMeta>>)
    ensures r == MapDicts(items, MetaOf)
  {
    var siteList: seq<SiteMeta> := [];
    var i := 0;
    while i < |items|
      invariant 0 <= i <= |items|
      invariant MapDicts(items[..i], MetaOf) == Ok(siteList)
    {
      assert items[..i + 1][..i] == items[..i];
      var it := AsObject(items[i]);
      if it.Err? {
        MapDictsErrPersists(items, MetaOf, i + 1);
        return Err(it.error);
      }
      siteList := siteList + [MetaOf(it.value)];
      i := i + 1;
    }
    assert items[..|items|] == items;
    r := Ok(siteList);
  }

  /** `load_app_config()`. */
  method LoadAppConfig(fs: Tree, loader: Loader) returns (r: Result<AppConfig>)
    ensures r == LoadedAppConfig(fs, loader)
  {
    var doc := ReadJson(fs, loader.appJsonPath);
    if doc.Err? {
      return Err(doc.error);
    }
    var data := AsObject(doc.value);
    if data.Err? {
      return Err(data.error);
    }
    var items := SiteListItems(data.value);
    if items.Err? {
      return Err(items.error);
    }
    var siteList := SiteList(items.value);
    if siteList.Err? {
      return Err(siteList.error);
    }
    var use := UseItems(data.value);
    if use.Err? {
      return Err(use.error);
    }
    r := Ok(AppConfig(FieldText(data.value, "server_url"), FieldText(data.value, "server_name"),
      UseList(use.value), siteList.value));
  }

  // ---------------------------------------------------------------------------
  // The document of a configuration, and the round trip
  // ---------------------------------------------------------------------------

  function MetaDoc(m: SiteMeta): Json {
    JObject([Member("key", JString(m.key)), Member("config_path", JString(m.configPath))])
  }

  function MetaDocs(metas: seq<SiteMeta>): (r: seq<Json>)
    ensures |r| == |metas| && forall i :: 0 <= i < |metas| ==> r[i] == MetaDoc(metas[i])
  {
    seq(|metas|, i requires 0 <= i < |metas| => MetaDoc(metas[i]))
  }

  function UseDocs(use: seq<string>): (r: seq<Json>)
    ensures |r| == |use| && forall i :: 0 <= i < |use| ==> r[i] == JString(use[i])
  {
    seq(|use|, i requires 0 <= i < |use| => JString(use[i]))
  }

  /** The configuration written as the `app.json` document that
      `load_app_config` reads: its four fields in declaration order. */
  function AppDoc(c: AppConfig): Json {
    JObject([
      Member("server_url", JString(c.serverUrl)),
      Member("server_name", JString(c.serverName)),
      Member("site_list_use", JArray(UseDocs(c.siteListUse))),
      Member("site_list", JArray(MetaDocs(c.siteList)))])
  }

  /** Every text is trimmed, as the loader leaves them. */
  predicate Trimmed(c: AppConfig) {
    && Strip(c.serverUrl) == c.serverUrl && Strip(c.serverName) == c.serverName
    && (forall i :: 0 <= i < |c.siteListUse| ==> Strip(c.siteListUse[i]) == c.siteListUse[i])
    && (forall i :: 0 <= i < |c.siteList| ==>
         Strip(c.siteList[i].key) == c.siteList[i].key && Strip(c.siteList[i].configPath) == c.siteList[i].configPath)
  }

  /** The text a field of `MetaDoc`/`AppDoc` reads back as. */
  lemma FieldTextOfString(ms: seq<Member>, k: string, s: string)
    requires GetOr(ms, k, JNull) == JString(s) && Strip(s) == s
    ensures FieldText(ms, k) == s
  {
  }

  /** `get` on a two-member object with distinct keys. */
  lemma GetOfPair(k1: string, v1: Json, k2: string, v2: Json)
    requires |k1| != |k2|
    ensures Get([Member(k1, v1), Member(k2, v2)], k1) == Some(v1)
    ensures Get([Member(k1, v1), Member(k2, v2)], k2) == Some(v2)
  {
    var ms := [Member(k1, v1), Member(k2, v2)];
    assert ms[1..] == [Member(k2, v2)];
  }

  /** Both texts of a two-member object of trimmed strings read back. */
  lemma FieldTextOfPair(k1: string, s1: string, k2: string, s2: string)
    requires |k1| != |k2| && Strip(s1) == s1 && Strip(s2) == s2
    ensures var ms := [Member(k1, JString(s1)), Member(k2, JString(s2))];
      FieldText(ms, k1) == s1 && FieldText(ms, k2) == s2
  {
    GetOfPair(k1, JString(s1), k2, JString(s2));
    var ms := [Member(k1, JString(s1)), Member(k2, JString(s2))];
    FieldTextOfString(ms, k1, s1);
    FieldTextOfString(ms, k2, s2);
  }

  lemma MetaOfMetaDoc(m: SiteMeta)
    requires Strip(m.key) == m.key && Strip(m.configPath) == m.configPath
    ensures MetaOf(MetaDoc(m).members) == m
  {
    FieldTextOfPair("key", m.key, "config_path", m.configPath);
  }

  /** The loop gives back records `xs` when each entry is a dict that `f`
      maps to the record at the same place. */
  lemma {:induction false} MapDictsOfDicts<T>(items: seq<Json>, f: seq<Member> -> T, xs: seq<T>)
    requires |items| == |xs|
    requires forall i :: 0 <= i < |items| ==> items[i].JObject? && f(items[i].members) == xs[i]
    ensures MapDicts(items, f) == Ok(xs)
  {
    if items != [] {
      var n := |items| - 1;
      MapDictsOfDicts(items[..n], f, xs[..n]);
      MapDictsStep(items, f);
      assert xs[..n] + [xs[n]] == xs;
    }
  }

  lemma SiteMetasOfMetaDocs(metas: seq<SiteMeta>)
    requires forall i :: 0 <= i < |metas| ==> Strip(metas[i].key) == metas[i].key && Strip(metas[i].configPath) == metas[i].configPath
    ensures MapDicts(MetaDocs(metas), MetaOf) == Ok(metas)
  {
    var items := MetaDocs(metas);
    forall i | 0 <= i < |items| ensures items[i].JObject? && MetaOf(items[i].members) == metas[i] {
      MetaOfMetaDoc(metas[i]);
    }
    MapDictsOfDicts(items, MetaOf, metas);
  }

  /** `get` on a four-member object whose keys have distinct lengths. */
  lemma GetOfFour(ms: seq<Member>)
    requires |ms| == 4
    requires forall a, b :: 0 <= a < b < 4 ==> |ms[a].key| != |ms[b].key|
    ensures forall j :: 0 <= j < 4 ==> Get(ms, ms[j].key) == Some(ms[j].value)
  {
    forall j | 0 <= j < 4 ensures Get(ms, ms[j].key) == Some(ms[j].value) {
      GetAt(ms, j);
    }
  }

  /** A list, or the empty list it falls back to, iterates over its items. */
  lemma IterateOrList(xs: seq<Json>)
    ensures Iterate(Or(JArray(xs), JArray([]))) == Ok(xs)
  {
  }

  /** What the fields of `AppDoc(c)` read back as. */
  lemma AppDocFields(c: AppConfig)
    ensures var data := AppDoc(c).members;
      && GetOr(data, "server_url", JNull) == JString(c.serverUrl)
      && GetOr(data, "server_name", JNull) == JString(c.serverName)
      && GetOr(data, "site_list_use", JNull) == JArray(UseDocs(c.siteListUse))
      && GetOr(data, "site_list", JArray([])) == JArray(MetaDocs(c.siteList))
  {
    var data := AppDoc(c).members;
    assert |data[0].key| == 10 && |data[1].key| == 11 && |data[2].key| == 13 && |data[3].key| == 9;
    GetOfFour(data);
  }

  /** Loading the document of a trimmed configuration gives that
      configuration back. */
  lemma AppConfigOfAppDoc(c: AppConfig)
    requires Trimmed(c)
    ensures AppConfigOf(AppDoc(c)) == Ok(c)
  {
    var data := AppDoc(c).members;
    AppDocFields(c);
    assert SiteListItems(data) == Ok(MetaDocs(c.siteList)) by {
      IterateOrList(MetaDocs(c.siteList));
    }
    assert UseItems(data) == Ok(UseDocs(c.siteListUse)) by {
      IterateOrList(UseDocs(c.siteListUse));
    }
    SiteMetasOfMetaDocs(c.siteList);
    FieldTextOfString(data, "server_url", c.serverUrl);
    FieldTextOfString(data, "server_name", c.serverName);
    assert UseList(UseDocs(c.siteListUse)) == c.siteListUse;
    AppConfigOfParts(data, c, MetaDocs(c.siteList), UseDocs(c.siteListUse));
  }

  /** `load_app_config()` on an object whose fields read back as the parts
      of `c`. */
  lemma AppConfigOfParts(data: seq<Member>, c: AppConfig, items: seq<Json>, use: seq<Json>)
    requires SiteListItems(data) == Ok(items) && UseItems(data) == Ok(use)
    requires MapDicts(items, MetaOf) == Ok(c.siteList)
    requires FieldText(data, "server_url") == c.serverUrl && FieldText(data, "server_name") == c.serverName
    requires UseList(use) == c.siteListUse
    ensures AppConfigOf(JObject(data)) == Ok(c)
  {
  }

  // ---------------------------------------------------------------------------
  // load_site_config
  // ---------------------------------------------------------------------------

  /** `str(config_path or "").strip().lstrip("/\\")`: the path made relative. */
  function RelativePart(configPath: string): (r: string)
    ensures r == [] || (r[0] != '/' && r[0] != '\\')
  {
    LStripAny(Strip(configPath), {'/', '\\'})
  }

  /** The components of a relative path with either separator; empty and
      `.` components name nothing. */
  function Components(rel: string): (cs: seq<string>)
    ensures forall c :: c in cs ==> c != [] && c != "."
  {
    KeepNames(Split(ReplaceAny(rel, {'\\'}, '/'), '/'))
  }

  function KeepNames(parts: seq<string>): (cs: seq<string>)
    ensures forall c :: c in cs ==> c in parts && c != [] && c != "."
  {
    if parts == [] then []
    else (if parts[0] != [] && parts[0] != "." then [parts[0]] else []) + KeepNames(parts[1..])
  }

  /** `.resolve()` with no symbolic links, for components below `base`: each
      `..` steps up one directory, any other component steps down. The first
      component of an absolute path is its drive (`C:`), and `..` never goes
      above it. */
  function Resolve(base: Path, cs: seq<string>): Path {
    if cs == [] then base
    else
      var b := Resolve(base, cs[..|cs| - 1]);
      if cs[|cs| - 1] == ".." then (if |b| <= 1 then b else Parent(b)) else b + [cs[|cs| - 1]]
  }

  /** `rel` starts with a Windows drive: a letter and `:` (`D:`). */
  predicate HasDrive(rel: string) {
    |rel| >= 2 && rel[1] == ':' && (('a' <= rel[0] <= 'z') || ('A' <= rel[0] <= 'Z'))
  }

  /** Drive names compare without case: `c:` is `C:`. */
  predicate SameDrive(a: string, b: string) {
    Upper(a) == Upper(b)
  }

  /** How the tree spells the drive `drive`: the runtime directory's own drive
      as the runtime directory spells it, any other drive in upper case (`d:`
      is `D:`). */
  function DriveKey(base: Path, drive: string): string {
    if base != [] && SameDrive(base[0], drive) then base[0] else Upper(drive)
  }

  /** The file `load_site_config(config_path)` reads: `runtime_dir / rel`
      joined as Windows paths join, then resolved.
      - Without a drive, `rel` lies below the runtime directory.
      - A drive followed by a separator (`D:/x`) makes `rel` absolute; it
        replaces the runtime directory.
      - The runtime directory's own drive without a separator (`C:x`) drops
        the drive and goes below the runtime directory.
      - Another drive without a separator (`D:x`) is relative to that drive's
        current directory, taken to be its root. */
  function SitePath(loader: Loader, configPath: string): Path {
    var rel := RelativePart(configPath);
    var base := loader.RuntimeDir();
    if !HasDrive(rel) then Resolve(base, Components(rel))
    else
      var drive, rest := rel[..2], rel[2..];
      var rooted := rest != [] && (rest[0] == '/' || rest[0] == '\\');
      if !rooted && base != [] && SameDrive(base[0], drive) then Resolve(base, Components(rest))
      else Resolve([DriveKey(base, drive)], Components(rest))
  }

  /** `load_site_config(config_path)`: a path that is blank once trimmed of
      whitespace and leading separators raises `ValueError`; otherwise the
      JSON of the file under the runtime directory. */
  function LoadSiteConfig(fs: Tree, loader: Loader, configPath: string): (r: Result<Json>)
    ensures RelativePart(configPath) == [] <==> r == Err(Exc(ValueError, "config_path is empty"))
    ensures RelativePart(configPath) != [] ==> r == ReadJson(fs, SitePath(loader, configPath))
  {
    if RelativePart(configPath) == [] then Err(Exc(ValueError, "config_path is empty"))
    else
      var r := ReadJson(fs, SitePath(loader, configPath));
      assert r.Err? ==> r.error.kind != ValueError;
      r
  }

  /** Without `..` the resolved path stays under the base directory: the
      components are appended to it. */
  lemma {:induction false} ResolveWithoutParent(base: Path, cs: seq<string>)
    requires ".." !in cs
    ensures Resolve(base, cs) == base + cs
  {
    if cs != [] {
      var n := |cs| - 1;
      assert ".." !in cs[..n] by {
        assert forall c :: c in cs[..n] ==> c in cs;
      }
      ResolveWithoutParent(base, cs[..n]);
      assert cs[..n] + [cs[n]] == cs;
    }
  }

  /** A plain file name is looked up directly in the runtime directory,
      whatever whitespace and leading separators surround it. */
  lemma SitePathOfName(loader: Loader, name: string, lead: string)
    requires name != [] && name != "." && name != ".." && Strip(name) == name
    requires '/' !in name && '\\' !in name && !HasDrive(name)
    requires forall c :: c in lead ==> c == '/' || c == '\\'
    ensures SitePath(loader, lead + name) == loader.RuntimeDir() + [name]
  {
    RelativeOfLead(lead, name);
    ComponentsOfName(name);
    ResolveWithoutParent(loader.RuntimeDir(), [name]);
  }

  /** A config path with a separator after its drive is read from the root of
      that drive, whichever case the drive letter is written in, and not from
      the runtime directory. */
  lemma SitePathOfRootedDrive(loader: Loader, drive: string, name: string)
    requires HasDrive(drive) && |drive| == 2
    requires name != [] && name != "." && name != ".." && Strip(name) == name
    requires '/' !in name && '\\' !in name
    ensures SitePath(loader, drive + "/" + name) == [DriveKey(loader.RuntimeDir(), drive), name]
  {
    var rest := "/" + name;
    var rel := drive + rest;
    assert drive + "/" + name == rel;
    assert RelativePart(rel) == rel by {
      TrimmedEnds(name);
      RelativeOfPlain(rel);
    }
    assert rel[..2] == drive && rel[2..] == rest;
    assert Components(rest) == [name] by {
      RootedComponents(name);
    }
    SitePathOfRooted(loader, rel);
    assert ".." !in [name];
    ResolveWithoutParent([DriveKey(loader.RuntimeDir(), drive)], [name]);
  }

  /** A relative part that starts with a drive and a separator is resolved
      from the root of that drive. */
  lemma SitePathOfRooted(loader: Loader, configPath: string)
    requires HasDrive(RelativePart(configPath)) && |RelativePart(configPath)| > 2
    requires RelativePart(configPath)[2] == '/' || RelativePart(configPath)[2] == '\\'
    ensures var rel := RelativePart(configPath);
      SitePath(loader, configPath) == Resolve([DriveKey(loader.RuntimeDir(), rel[..2])], Components(rel[2..]))
  {
  }

  /** The case of the drive letter does not change which file is read:
      `c:/name` and `C:/name` name the same entry. */
  lemma DriveCaseIgnored(loader: Loader, d1: string, d2: string, name: string)
    requires HasDrive(d1) && |d1| == 2 && HasDrive(d2) && |d2| == 2 && SameDrive(d1, d2)
    requires name != [] && name != "." && name != ".." && Strip(name) == name
    requires '/' !in name && '\\' !in name
    ensures SitePath(loader, d1 + "/" + name) == SitePath(loader, d2 + "/" + name)
  {
    SitePathOfRootedDrive(loader, d1, name);
    SitePathOfRootedDrive(loader, d2, name);
  }

  /** A separator before a plain name leaves the name as the one component. */
  lemma RootedComponents(name: string)
    requires name != [] && name != "."
    requires '/' !in name && '\\' !in name
    ensures Components("/" + name) == [name]
  {
    assert ReplaceAny("/" + name, {'\\'}, '/') == "/" + name;
    SplitPrefix([], name, '/');
    assert [] + ['/'] + name == "/" + name;
    SplitNoSep(name, '/');
    assert KeepNames(["", name]) == [name] by {
      assert KeepNames(["", name][1..]) == KeepNames([name]);
    }
  }

  /** The runtime directory's own drive, in either case and without a
      separator after it, is dropped: the name is looked up in the runtime
      directory. */
  lemma SitePathOfSameDrive(loader: Loader, drive: string, name: string)
    requires loader.RuntimeDir() != [] && SameDrive(loader.RuntimeDir()[0], drive)
    requires HasDrive(drive) && |drive| == 2
    requires name != [] && name != "." && name != ".." && Strip(name) == name
    requires '/' !in name && '\\' !in name
    ensures SitePath(loader, drive + name) == loader.RuntimeDir() + [name]
  {
    var rel := drive + name;
    TrimmedEnds(name);
    RelativeOfPlain(rel);
    assert rel[..2] == drive && rel[2..] == name;
    assert HasDrive(RelativePart(rel));
    ComponentsOfName(name);
    assert Resolve(loader.RuntimeDir(), [name]) == loader.RuntimeDir() + [name] by {
      assert [name][..0] == [];
    }
  }

  /** A path with no whitespace at either end and no leading separator is
      already relative. */
  lemma RelativeOfPlain(rel: string)
    requires rel != [] && !IsSpace(rel[0]) && !IsSpace(rel[|rel| - 1])
    requires rel[0] != '/' && rel[0] != '\\'
    ensures RelativePart(rel) == rel
  {
    StripOfTrimmed(rel);
    LStripAnyPrefix([], rel, {'/', '\\'});
    assert [] + rel == rel;
  }

  /** Leading separators before a trimmed name are dropped. */
  lemma RelativeOfLead(lead: string, name: string)
    requires name != [] && Strip(name) == name
    requires '/' !in name && '\\' !in name
    requires forall c :: c in lead ==> c == '/' || c == '\\'
    ensures RelativePart(lead + name) == name
  {
    var cs: set<char> := {'/', '\\'};
    assert name[0] !in cs by {
      assert name[0] in name;
    }
    assert forall c :: c in lead ==> c in cs;
    LStripAnyPrefix(lead, name, cs);
    StripOfLead(lead, name);
  }

  /** Separators before a trimmed name leave it trimmed. */
  lemma StripOfLead(lead: string, name: string)
    requires name != [] && Strip(name) == name
    requires forall c :: c in lead ==> c == '/' || c == '\\'
    ensures Strip(lead + name) == lead + name
  {
    var s := lead + name;
    TrimmedEnds(name);
    assert s[|s| - 1] == name[|name| - 1];
    if lead != [] {
      assert s[0] == lead[0] && lead[0] in lead;
    }
    StripOfTrimmed(s);
  }

  /** A name without separators is a single component. */
  lemma ComponentsOfName(name: string)
    requires name != [] && name != "."
    requires '/' !in name && '\\' !in name
    ensures Components(name) == [name]
  {
    assert ReplaceAny(name, {'\\'}, '/') == name;
    SplitNoSep(name, '/');
    assert KeepNames([name]) == [name];
  }

  /** Stripping a prefix of characters from `cs` stops at the first other one. */
  lemma {:induction false} LStripAnyPrefix(lead: string, rest: string, cs: set<char>)
    requires forall c :: c in lead ==> c in cs
    requires rest != [] && rest[0] !in cs
    ensures LStripAny(lead + rest, cs) == rest
  {
    if lead != [] {
      assert (lead + rest)[1..] == lead[1..] + rest;
      assert forall c :: c in lead[1..] ==> c in lead;
      LStripAnyPrefix(lead[1..], rest, cs);
    } else {
      assert lead + rest == rest;
    }
  }

  // ---------------------------------------------------------------------------
  // get_enabled_site_configs
  // ---------------------------------------------------------------------------

  /** A site takes part when its key is not blank and is listed as in use. */
  predicate Selected(m: SiteMeta, use: set<string>) {
    m.key != [] && m.key in use
  }

  /** The sites that take part, in `site_list` order. */
  function SelectedSites(metas: seq<SiteMeta>, use: set<string>): seq<SiteMeta> {
    if metas == [] then []
    else
      var pre := SelectedSites(metas[..|metas| - 1], use);
      if Selected(metas[|metas| - 1], use) then pre + [metas[|metas| - 1]] else pre
  }

  /** A site is kept exactly when it is listed and selected. */
  lemma {:induction false} SelectedSitesMembers(metas: seq<SiteMeta>, use: set<string>)
    ensures forall m :: m in SelectedSites(metas, use) <==> m in metas && Selected(m, use)
  {
    if metas != [] {
      var n := |metas| - 1;
      SelectedSitesMembers(metas[..n], use);
      assert metas == metas[..n] + [metas[n]];
    }
  }

  /** The loop of `get_enabled_site_configs` over the site list, with
      `load` standing for `load_site_config`: the configurations of the
      selected sites, in order; the first one that fails to load ends it with
      that error. */
  function EnabledBy(metas: seq<SiteMeta>, use: set<string>, load: string -> Result<Json>): Result<seq<Json>> {
    if metas == [] then Ok([])
    else
      var pre :- EnabledBy(metas[..|metas| - 1], use, load);
      var m := metas[|metas| - 1];
      if Selected(m, use) then
        var c :- load(m.configPath);
        Ok(pre + [c])
      else Ok(pre)
  }

  lemma {:induction false} EnabledErrPersists(metas: seq<SiteMeta>, use: set<string>, load: string -> Result<Json>, j: nat)
    requires j <= |metas| && EnabledBy(metas[..j], use, load).Err?
    ensures EnabledBy(metas, use, load) == EnabledBy(metas[..j], use, load)
    decreases |metas| - j
  {
    if j < |metas| {
      var n := |metas| - 1;
      assert metas[..n][..j] == metas[..j];
      EnabledErrPersists(metas[..n], use, load, j);
    } else {
      assert metas[..j] == metas;
    }
  }

  /** On success there is one configuration per selected site, each the one
      `load` reads for it. */
  lemma {:induction false} EnabledOfSelected(metas: seq<SiteMeta>, use: set<string>, load: string -> Result<Json>)
    requires EnabledBy(metas, use, load).Ok?
    ensures var r, sel := EnabledBy(metas, use, load).value, SelectedSites(metas, use);
      && |r| == |sel|
      && forall i :: 0 <= i < |sel| ==> load(sel[i].configPath) == Ok(r[i])
  {
    if metas != [] {
      var n := |metas| - 1;
      EnabledOfSelected(metas[..n], use, load);
    }
  }

  /** A load error of a selected site is the loop's error unless an earlier
      selected site failed first; the loop never fails without a failing
      load. */
  lemma {:induction false} EnabledFailsOnlyOnLoad(metas: seq<SiteMeta>, use: set<string>, load: string -> Result<Json>)
    requires EnabledBy(metas, use, load).Err?
    ensures exists m :: m in SelectedSites(metas, use) && load(m.configPath) == Err(EnabledBy(metas, use, load).error)
  {
    var n := |metas| - 1;
    var pre := EnabledBy(metas[..n], use, load);
    if pre.Err? {
      EnabledFailsOnlyOnLoad(metas[..n], use, load);
      var m :| m in SelectedSites(metas[..n], use) && load(m.configPath) == Err(pre.error);
      assert m in SelectedSites(metas, use);
    } else {
      assert metas[n] in SelectedSites(metas, use);
    }
  }

  /** `set(site_list_use)`. */
  function UseSet(use: seq<string>): set<string> {
    set u | u in use
  }

  /** `load_site_config` of this loader on this filesystem. */
  function SiteLoader(fs: Tree, loader: Loader): string -> Result<Json> {
    p => LoadSiteConfig(fs, loader, p)
  }

  /** `get_enabled_site_configs()` on the loaded configuration. */
  function EnabledSiteConfigs(fs: Tree, loader: Loader): Result<seq<Json>> {
    var cfg :- LoadedAppConfig(fs, loader);
    EnabledBy(cfg.siteList, UseSet(cfg.siteListUse), SiteLoader(fs, loader))
  }

  /** One more site in the prefix fold of `EnabledBy`. */
  lemma EnabledPrefix(metas: seq<SiteMeta>, use: set<string>, load: string -> Result<Json>, i: nat)
    requires i < |metas| && EnabledBy(metas[..i], use, load).Ok?
    ensures var pre := EnabledBy(metas[..i], use, load).value;
            var p := metas[i].configPath;
            EnabledBy(metas[..i + 1], use, load)
            == if !Selected(metas[i], use) then Ok(pre)
               else if load(p).Err? then Err(load(p).error)
               else Ok(pre + [load(p).value])
  {
    assert metas[..i + 1][..i] == metas[..i];
  }

  /** The loop of `get_enabled_site_configs()` over the loaded site list. */
  method LoadSelected(fs: Tree, loader: Loader, metas: seq<SiteMeta>, useSet: set<string>) returns (r: Result<seq<Json>>)
    ensures r == EnabledBy(metas, useSet, SiteLoader(fs, loader))
  {
    ghost var load := SiteLoader(fs, loader);
    var out: seq<Json> := [];
    var i := 0;
    while i < |metas|
      invariant 0 <= i <= |metas|
      invariant EnabledBy(metas[..i], useSet, load) == Ok(out)
    {
      EnabledPrefix(metas, useSet, load, i);
      var meta := metas[i];
      if meta.key != [] && meta.key in useSet {
        var c := LoadSiteConfig(fs, loader, meta.configPath);
        assert load(meta.configPath) == c;
        if c.Err? {
          EnabledErrPersists(metas, useSet, load, i + 1);
          return Err(c.error);
        }
        out := out + [c.value];
      }
      i := i + 1;
    }
    assert metas[..|metas|] == metas;
    r := Ok(out);
  }

  /** `get_enabled_site_configs()`. */
  method GetEnabledSiteConfigs(fs: Tree, loader: Loader) returns (r: Result<seq<Json>>)
    ensures r == EnabledSiteConfigs(fs, loader)
  {
    var appConf := LoadAppConfig(fs, loader);
    if appConf.Err? {
      return Err(appConf.error);
    }
    r := LoadSelected(fs, loader, appConf.value.siteList, UseSet(appConf.value.siteListUse));
  }
}
