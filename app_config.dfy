/** `launcher/core/app_config.py`: the support links the launcher shows,
    read from the `support` object of `app.json` in the data directory. */
module LauncherAppConfig {
  import opened Common
  import opened JsonValue
  import opened FileSystem

  /** `SupportConfig`: the help-site and Q&A links, both trimmed. */
  datatype SupportConfig = SupportConfig(siteUrl: string, qnaUrl: string)

  /** `data_dir / "app.json"`. */
  function ConfigPath(dataDir: Path): Path {
    dataDir + ["app.json"]
  }

  /** The document in `app.json`, or `None` when reading or parsing it fails
      (a missing file, a directory, bytes that are not JSON). */
  function ConfigDoc(fs: Tree, dataDir: Path): Option<Json> {
    var p := ConfigPath(dataDir);
    if IsFile(fs, p) && fs[p].content.Doc? then Some(fs[p].content.json) else None
  }

  /** `load_support_config(data_dir)`. Only reading and parsing are guarded:
      a document that is not an object makes `obj.get` raise
      `AttributeError`, which propagates. Every other shortfall (no `support`
      object, a missing or blank link) gives `None`. */
  function LoadSupportConfig(fs: Tree, dataDir: Path): (r: Result<Option<SupportConfig>>)
    ensures r.Err? <==> ConfigDoc(fs, dataDir).Some? && !ConfigDoc(fs, dataDir).value.JObject?
    ensures r.Err? ==> r.error.kind == AttributeError
    ensures (r.Ok? && r.value.Some? ==>
      ConfigDoc(fs, dataDir).Some? && ConfigDoc(fs, dataDir).value.JObject? &&
      var support := GetOr(ConfigDoc(fs, dataDir).value.members, "support", JNull);
      && support.JObject?
      && TrimmedText(GetOr(support.members, "site_url", JNull)) == Some(r.value.value.siteUrl)
      && TrimmedText(GetOr(support.members, "qna_url", JNull)) == Some(r.value.value.qnaUrl))
    ensures (r == Ok(None) && ConfigDoc(fs, dataDir).Some? ==>
      ConfigDoc(fs, dataDir).value.JObject? &&
      var support := GetOr(ConfigDoc(fs, dataDir).value.members, "support", JNull);
      || !support.JObject?
      || TrimmedText(GetOr(support.members, "site_url", JNull)).None?
      || TrimmedText(GetOr(support.members, "qna_url", JNull)).None?)
  {
    match ConfigDoc(fs, dataDir)
    case None => Ok(None)
    case Some(obj) =>
      var ms :- AsObject(obj);
      var support := GetOr(ms, "support", JNull);
      if !support.JObject? then Ok(None)
      else
        var siteUrl := TrimmedText(GetOr(support.members, "site_url", JNull));
        var qnaUrl := TrimmedText(GetOr(support.members, "qna_url", JNull));
        if siteUrl.None? || qnaUrl.None? then Ok(None)
        else Ok(Some(SupportConfig(siteUrl.value, qnaUrl.value)))
  }

  /** The links of a loaded configuration are trimmed and not blank. */
  lemma LoadedLinksTrimmed(fs: Tree, dataDir: Path)
    requires LoadSupportConfig(fs, dataDir).Ok? && LoadSupportConfig(fs, dataDir).value.Some?
    ensures var c := LoadSupportConfig(fs, dataDir).value.value;
      c.siteUrl != [] && Strip(c.siteUrl) == c.siteUrl && c.qnaUrl != [] && Strip(c.qnaUrl) == c.qnaUrl
  {
    var support := GetOr(ConfigDoc(fs, dataDir).value.members, "support", JNull);
    var s := TrimmedText(GetOr(support.members, "site_url", JNull));
    var q := TrimmedText(GetOr(support.members, "qna_url", JNull));
    assert s.Some? && q.Some?;
  }

  /** The document a configuration is written as: `{"support": {"site_url":
      ..., "qna_url": ...}}`. */
  function SupportDoc(c: SupportConfig): Json {
    JObject([Member("support", JObject([Member("site_url", JString(c.siteUrl)), Member("qna_url", JString(c.qnaUrl))]))])
  }

  /** Writing a configuration with trimmed, non-blank links and loading it
      again gives the same configuration. */
  lemma LoadOfSupportDoc(fs: Tree, dataDir: Path, c: SupportConfig)
    requires c.siteUrl != [] && Strip(c.siteUrl) == c.siteUrl
    requires c.qnaUrl != [] && Strip(c.qnaUrl) == c.qnaUrl
    requires ConfigPath(dataDir) in fs && fs[ConfigPath(dataDir)] == File(Doc(SupportDoc(c)))
    ensures LoadSupportConfig(fs, dataDir) == Ok(Some(c))
  {
    var inner := [Member("site_url", JString(c.siteUrl)), Member("qna_url", JString(c.qnaUrl))];
    var outer := [Member("support", JObject(inner))];
    assert ConfigDoc(fs, dataDir) == Some(JObject(outer));
    assert GetOr(outer, "support", JNull) == JObject(inner) by {
      GetAt(outer, 0);
    }
    assert GetOr(inner, "site_url", JNull) == JString(c.siteUrl) by {
      GetAt(inner, 0);
    }
    assert GetOr(inner, "qna_url", JNull) == JString(c.qnaUrl) by {
      assert inner[0].key[0] != inner[1].key[0];
      GetAt(inner, 1);
    }
  }

  /** Without the file there is no configuration, and no error. */
  lemma MissingFileGivesNone(fs: Tree, dataDir: Path)
    requires ConfigPath(dataDir) !in fs
    ensures LoadSupportConfig(fs, dataDir) == Ok(None)
  {
  }
}
