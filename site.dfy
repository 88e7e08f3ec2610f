/** `src/models/site.py`: the record of one crawl site as the selection
    screens carry it around. */
module SiteModel {
  import opened Common
  import opened JsonValue

  /** The `Site` dataclass. `label`, `key` and `color` are annotated as
      optional strings and the other payload fields as `Any`, but
      `from_dict` copies whatever value it finds, so all of them are JSON
      values here, `JNull` standing for `None`. */
  datatype Site = Site(
    siteLabel: Json,
    key: Json,
    color: Json,
    enabled: bool,
    setting: Json,
    settingDetail: Json,
    columns: Json,
    region: Json,
    popup: bool,
    sites: bool)
  {
    /** `is_enabled()`. */
    predicate IsEnabled() {
      enabled
    }
  }

  /** `Site()`: every field at its declared default. */
  const DefaultSite: Site := Site(JNull, JNull, JNull, true, JNull, JNull, JNull, JNull, false, false)

  /** `Site.from_dict(d)`: the seven payload fields copied as they are
      (`None` when absent), and the three flags passed through `bool()` with
      the defaults `enabled=True`, `popup=False`, `sites=False`. */
  function FromDict(d: seq<Member>): (s: Site)
    ensures s.siteLabel == GetOr(d, "label", JNull) && s.key == GetOr(d, "key", JNull)
    ensures s.color == GetOr(d, "color", JNull) && s.setting == GetOr(d, "setting", JNull)
    ensures s.settingDetail == GetOr(d, "setting_detail", JNull)
    ensures s.columns == GetOr(d, "columns", JNull) && s.region == GetOr(d, "region", JNull)
    ensures s.enabled <==> Get(d, "enabled").None? || Truthy(Get(d, "enabled").value)
    ensures s.popup <==> Get(d, "popup").Some? && Truthy(Get(d, "popup").value)
    ensures s.sites <==> Get(d, "sites").Some? && Truthy(Get(d, "sites").value)
  {
    Site(
      siteLabel := GetOr(d, "label", JNull),
      key := GetOr(d, "key", JNull),
      color := GetOr(d, "color", JNull),
      enabled := Truthy(GetOr(d, "enabled", JBool(true))),
      setting := GetOr(d, "setting", JNull),
      settingDetail := GetOr(d, "setting_detail", JNull),
      columns := GetOr(d, "columns", JNull),
      region := GetOr(d, "region", JNull),
      popup := Truthy(GetOr(d, "popup", JBool(false))),
      sites := Truthy(GetOr(d, "sites", JBool(false))))
  }

  /** An empty dict gives the default site, which is enabled. */
  lemma FromEmptyDict()
    ensures FromDict([]) == DefaultSite && FromDict([]).IsEnabled()
  {
  }

  /** An explicit `null` is not a missing key: `bool(None)` is false, so
      `{"enabled": null}` gives a disabled site. */
  lemma ExplicitNullDisables(rest: seq<Member>)
    ensures !FromDict([Member("enabled", JNull)] + rest).IsEnabled()
  {
    var d := [Member("enabled", JNull)] + rest;
    assert Get(d, "enabled") == Some(JNull);
  }

  /** The site as a dict: the ten keys `from_dict` reads, in the order of
      the dataclass's fields, each with its field's value. */
  function ToDict(s: Site): seq<Member> {
    [Member("label", s.siteLabel), Member("key", s.key), Member("color", s.color),
     Member("enabled", JBool(s.enabled)), Member("setting", s.setting),
     Member("setting_detail", s.settingDetail), Member("columns", s.columns),
     Member("region", s.region), Member("popup", JBool(s.popup)),
     Member("sites", JBool(s.sites))]
  }

  /** Reading back the dict of a site gives the same site. */
  lemma FromDictOfToDict(s: Site)
    ensures FromDict(ToDict(s)) == s
  {
    var d := ToDict(s);
    SiteField(s, 0); SiteField(s, 1); SiteField(s, 2); SiteField(s, 3); SiteField(s, 4);
    SiteField(s, 5); SiteField(s, 6); SiteField(s, 7); SiteField(s, 8); SiteField(s, 9);
  }

  /** `get` finds every field of the dict of a site. */
  lemma SiteField(s: Site, i: int)
    requires 0 <= i < 10
    ensures Get(ToDict(s), ToDict(s)[i].key) == Some(ToDict(s)[i].value)
  {
    DistinctKeysOfSite(s);
    GetOfDistinct(ToDict(s), i);
  }

  predicate Distinct(d: seq<Member>) {
    forall i, j :: 0 <= i < j < |d| ==> d[i].key != d[j].key
  }

  lemma DistinctKeysOfSite(s: Site)
    ensures Distinct(ToDict(s))
  {
    var d := ToDict(s);
    // The first character and the length tell the ten keys apart.
    forall i, j | 0 <= i < j < |d| ensures d[i].key != d[j].key {
      assert d[i].key[0] != d[j].key[0] || |d[i].key| != |d[j].key|;
    }
  }

  /** In a dict whose keys are distinct, `get` finds every member. */
  lemma GetOfDistinct(d: seq<Member>, i: int)
    requires 0 <= i < |d| && Distinct(d)
    ensures Get(d, d[i].key) == Some(d[i].value)
  {
    GetAt(d, i);
  }
}
