/** The launcher's two server queries (launcher/core/api.py): the latest
    release of a program and its latest notice. The request itself is a
    `Reply`; what is modelled is the URL and the validation of the answer. */
module Api {
  import opened Common
  import opened JsonValue
  import opened Http

  /** `LatestInfo`: the release the server advertises. */
  datatype LatestInfo = LatestInfo(
    programId: string,
    latestVersion: string,
    assetUrl: Option<string>,
    assetSha256: Option<string>,
    assetSize: Option<int>)

  /** `NoticeInfo`: the notice to show before starting the program. */
  datatype NoticeInfo = NoticeInfo(noticeId: string, level: string, force: bool, title: string, content: string)

  /** The `(ok, msg, info)` triple both queries return. */
  datatype Answer<T> = Answer(ok: bool, msg: string, info: Option<T>)

  // ---------------------------------------------------------------------------
  // URLs
  // ---------------------------------------------------------------------------

  /** The server base with every trailing `/` removed. */
  function Base(server: string): (b: string)
    ensures b <= server && (b == [] || b[|b| - 1] != '/')
    ensures forall i :: |b| <= i < |server| ==> server[i] == '/'
  {
    RStripAny(server, {'/'})
  }

  function LatestUrl(server: string, programId: string): string {
    Base(server) + "/launcher/api/v1/programs/" + programId + "/latest"
  }

  function NoticeUrl(server: string, programId: string): string {
    Base(server) + "/launcher/api/v1/programs/" + programId + "/notices/latest"
  }

  /** A trailing `/` on the configured server does not change the base, so
      `"http://h/"` and `"http://h"` query the same URLs. */
  lemma {:induction false} BaseIgnoresTrailingSlash(server: string)
    ensures Base(server + "/") == Base(server)
  {
    var t := server + "/";
    assert t[|t| - 1] == '/' && t[..|t| - 1] == server;
  }

  /** The URL is the stripped base, then the fixed route, then the program
      id, so two servers differing only in trailing slashes agree on it, and
      the program id can be read back from it. */
  lemma LatestUrlParts(server: string, programId: string)
    ensures var u := LatestUrl(server, programId);
      var route := "/launcher/api/v1/programs/";
      && u[..|Base(server)|] == Base(server)
      && u[|Base(server)|..|Base(server)| + |route|] == route
      && u[|Base(server)| + |route|..|u| - 7] == programId
      && u[|u| - 7..] == "/latest"
    ensures LatestUrl(server + "/", programId) == LatestUrl(server, programId)
  {
    BaseIgnoresTrailingSlash(server);
  }

  // ---------------------------------------------------------------------------
  // fetch_latest
  // ---------------------------------------------------------------------------

  /** Python's `obj.get(k)` on the members of a dict. */
  function Field(ms: seq<Member>, k: string): Json {
    GetOr(ms, k, JNull)
  }

  /** `int(v) if isinstance(v, int) else None`; `True` counts, as 1. */
  function IntOrNone(j: Json): (r: Option<int>)
    ensures r.Some? <==> IsPyInt(j)
    ensures j.JInt? ==> r == Some(j.i)
  {
    if IsPyInt(j) then Some(PyIntValue(j)) else None
  }

  /** `obj.get("asset") or {}` can be used as a dict: it is a dict or falsy. */
  predicate AssetUsable(ms: seq<Member>) {
    var a := Field(ms, "asset");
    a.JObject? || !Truthy(a)
  }

  /** The checks on the decoded body of a 200 answer. A body that is not a
      dict makes `obj.get` raise; so does an `asset` that is truthy but not a
      dict. */
  function LatestOf(doc: Json): (r: Result<Answer<LatestInfo>>)
    ensures !doc.JObject? ==> r == Err(NoGet(doc))
    ensures doc.JObject? ==> var ms := doc.members;
      && (r.Err? <==> (TrimmedText(Field(ms, "program_id")).Some?
                      && TrimmedText(Field(ms, "latest_version")).Some? && !AssetUsable(ms)))
      && (r.Ok? && r.value.ok <==> (TrimmedText(Field(ms, "program_id")).Some?
                      && TrimmedText(Field(ms, "latest_version")).Some? && AssetUsable(ms)))
    ensures r.Err? ==> r.error.kind == AttributeError
    ensures r.Ok? ==> (r.value.ok <==> r.value.info.Some?)
    ensures r.Ok? && !r.value.ok ==> r.value.msg in {"invalid response: \"program_id\"", "invalid response: \"latest_version\""}
    ensures r.Ok? && r.value.ok ==> r.value.msg == "ok"
  {
    var ms :- AsObject(doc);
    var pid := TrimmedText(Field(ms, "program_id"));
    var latest := TrimmedText(Field(ms, "latest_version"));
    if pid.None? then Ok(Answer(false, "invalid response: \"program_id\"", None))
    else if latest.None? then Ok(Answer(false, "invalid response: \"latest_version\"", None))
    else
      var asset :- AsObject(Or(Field(ms, "asset"), JObject([])));
      Ok(Answer(true, "ok", Some(LatestInfo(
        pid.value,
        latest.value,
        TrimmedText(Field(asset, "url")),
        TrimmedText(Field(asset, "sha256")),
        IntOrNone(Field(asset, "size"))))))
  }

  /** `fetch_latest` given the reply to its `GET`: a raised request, a status
      other than 200 and a body that is not JSON each give a failure triple;
      `Err` is an exception that escapes the function. */
  function LatestFromReply(reply: Reply): (r: Result<Answer<LatestInfo>>)
    ensures reply.Raised? ==> r == Ok(Answer(false, "request failed: " + reply.reason, None))
    ensures reply.Replied? && reply.response.status != 200 ==>
      r == Ok(Answer(false, "bad status: " + IntToString(reply.response.status) + " / " + TextHead(reply.response), None))
    ensures RepliedWith(reply, 200) && reply.response.json.Err? ==>
      r == Ok(Answer(false, "json parse failed: " + reply.response.json.error.msg, None))
    ensures RepliedWith(reply, 200) && reply.response.json.Ok? ==> r == LatestOf(reply.response.json.value)
    ensures r.Ok? && r.value.ok ==>
      RepliedWith(reply, 200) && reply.response.json.Ok? && reply.response.json.value.JObject?
  {
    match reply
    case Raised(reason) => Ok(Answer(false, "request failed: " + reason, None))
    case Replied(res) =>
      if res.status != 200 then
        Ok(Answer(false, "bad status: " + IntToString(res.status) + " / " + TextHead(res), None))
      else match res.json
        case Err(e) => Ok(Answer(false, "json parse failed: " + e.msg, None))
        case Ok(doc) => LatestOf(doc)
  }

  /** `fetch_latest(server_base_url, program_id)`. */
  function FetchLatest(net: Network, server: string, programId: string): Result<Answer<LatestInfo>> {
    LatestFromReply(net.get(LatestUrl(server, programId)))
  }

  predicate RepliedWith(reply: Reply, status: int) {
    reply.Replied? && reply.response.status == status
  }

  /** Every answered release has trimmed, non-blank id and version, and asset
      URL and checksum that are trimmed and non-blank when present. */
  predicate Clean(info: LatestInfo) {
    && info.programId != [] && Strip(info.programId) == info.programId
    && info.latestVersion != [] && Strip(info.latestVersion) == info.latestVersion
    && (info.assetUrl.Some? ==> info.assetUrl.value != [] && Strip(info.assetUrl.value) == info.assetUrl.value)
    && (info.assetSha256.Some? ==> info.assetSha256.value != [] && Strip(info.assetSha256.value) == info.assetSha256.value)
  }

  lemma LatestIsClean(doc: Json)
    requires LatestOf(doc).Ok? && LatestOf(doc).value.ok
    ensures Clean(LatestOf(doc).value.info.value)
  {
    var ms := doc.members;
    var a := Or(Field(ms, "asset"), JObject([]));
    var info := LatestOf(doc).value.info.value;
    assert a.JObject?;
    assert info.programId == TrimmedText(Field(ms, "program_id")).value;
    assert info.latestVersion == TrimmedText(Field(ms, "latest_version")).value;
    assert info.assetUrl == TrimmedText(Field(a.members, "url"));
    assert info.assetSha256 == TrimmedText(Field(a.members, "sha256"));
  }

  /** A body without `asset` never fails for that reason: the release comes
      back with no URL, checksum or size. */
  lemma MissingAssetIsFine(ms: seq<Member>)
    requires Get(ms, "asset").None?
    requires TrimmedText(Field(ms, "program_id")).Some? && TrimmedText(Field(ms, "latest_version")).Some?
    ensures var r := LatestOf(JObject(ms));
      r.Ok? && r.value.ok && r.value.info.value.assetUrl.None?
      && r.value.info.value.assetSha256.None? && r.value.info.value.assetSize.None?
  {
    assert Field(ms, "asset") == JNull;
    var empty: seq<Member> := [];
    assert Get(empty, "url").None? && Get(empty, "sha256").None? && Get(empty, "size").None?;
  }

  function OptText(t: Option<string>): Json {
    if t.Some? then JString(t.value) else JNull
  }

  function OptInt(n: Option<int>): Json {
    if n.Some? then JInt(n.value) else JNull
  }

  /** The body a server sends for a release. */
  function LatestDoc(info: LatestInfo): Json {
    JObject([
      Member("program_id", JString(info.programId)),
      Member("latest_version", JString(info.latestVersion)),
      Member("asset", AssetDoc(info))])
  }

  function AssetDoc(info: LatestInfo): Json {
    JObject([
      Member("url", OptText(info.assetUrl)),
      Member("sha256", OptText(info.assetSha256)),
      Member("size", OptInt(info.assetSize))])
  }

  lemma LatestDocFields(info: LatestInfo)
    ensures var ms := LatestDoc(info).members;
      && Field(ms, "program_id") == JString(info.programId)
      && Field(ms, "latest_version") == JString(info.latestVersion)
      && Field(ms, "asset") == AssetDoc(info)
  {
    var ms := LatestDoc(info).members;
    assert ms[0].key != "latest_version" && ms[0].key != "asset" by { assert |ms[0].key| == 10; }
    assert ms[1].key != "asset" by { assert |ms[1].key| == 14; }
    assert ms[1..][1..] == ms[2..];
    assert Get(ms[2..], "asset") == Some(AssetDoc(info));
  }

  lemma AssetDocFields(info: LatestInfo)
    ensures var am := AssetDoc(info).members;
      && Field(am, "url") == OptText(info.assetUrl)
      && Field(am, "sha256") == OptText(info.assetSha256)
      && Field(am, "size") == OptInt(info.assetSize)
  {
    var am := AssetDoc(info).members;
    assert am[0].key != "sha256" && am[0].key != "size" by { assert |am[0].key| == 3; }
    assert am[1].key != "size" by { assert |am[1].key| == 6; }
    assert am[1..][1..] == am[2..];
    assert Get(am[2..], "size") == Some(OptInt(info.assetSize));
  }

  /** The fields validation reads from the body of a clean release. */
  lemma LatestDocTexts(info: LatestInfo)
    requires Clean(info)
    ensures var ms := LatestDoc(info).members;
      var a := Or(Field(ms, "asset"), JObject([]));
      && TrimmedText(Field(ms, "program_id")) == Some(info.programId)
      && TrimmedText(Field(ms, "latest_version")) == Some(info.latestVersion)
      && a == AssetDoc(info)
      && TrimmedText(Field(a.members, "url")) == info.assetUrl
      && TrimmedText(Field(a.members, "sha256")) == info.assetSha256
      && IntOrNone(Field(a.members, "size")) == info.assetSize
  {
    var ms, a := LatestDoc(info).members, AssetDoc(info);
    assert Field(ms, "program_id") == JString(info.programId)
        && Field(ms, "latest_version") == JString(info.latestVersion)
        && Field(ms, "asset") == a by {
      LatestDocFields(info);
    }
    assert Field(a.members, "url") == OptText(info.assetUrl)
        && Field(a.members, "sha256") == OptText(info.assetSha256)
        && Field(a.members, "size") == OptInt(info.assetSize) by {
      AssetDocFields(info);
    }
    assert Or(a, JObject([])) == a by {
      assert a.JObject? && a.members != [];
    }
    TrimmedOfOpt(Some(info.programId));
    TrimmedOfOpt(Some(info.latestVersion));
    TrimmedOfOpt(info.assetUrl);
    TrimmedOfOpt(info.assetSha256);
  }

  /** A trimmed, non-blank text reads back as itself; a missing one as `None`. */
  lemma TrimmedOfOpt(t: Option<string>)
    requires t.Some? ==> t.value != [] && Strip(t.value) == t.value
    ensures TrimmedText(OptText(t)) == t
  {
  }

  /** Validation gives back exactly the release the server described, as
      long as its texts are already trimmed and non-blank. */
  lemma LatestRoundTrip(info: LatestInfo)
    requires Clean(info)
    ensures LatestOf(LatestDoc(info)) == Ok(Answer(true, "ok", Some(info)))
  {
    LatestDocTexts(info);
  }

  // ---------------------------------------------------------------------------
  // fetch_latest_notice
  // ---------------------------------------------------------------------------

  /** `level`: a non-blank string, trimmed and upper-cased; anything else
      (missing, blank, not a string) becomes `"INFO"`. Python first replaces a
      falsy value with `"INFO"`, which the same rule already covers. */
  function Level(j: Json): (level: string)
    ensures level != []
    ensures forall i :: 0 <= i < |level| ==> !('a' <= level[i] <= 'z')
    ensures !(j.JString? && Strip(j.s) != []) ==> level == "INFO"
    ensures j.JString? && Strip(j.s) != [] ==> level == Upper(Strip(j.s))
  {
    match TrimmedText(j)
    case Some(t) => Upper(t)
    case None => "INFO"
  }

  /** `str(v or "").strip()`, used for `title` and `content`. */
  function TextOr(j: Json): string {
    Strip(PyStr(Or(j, JString(""))))
  }

  /** The checks on the dict that holds the notice. */
  function NoticeOf(n: seq<Member>): (r: Answer<NoticeInfo>)
    ensures r.ok <==> TrimmedText(Field(n, "id")).Some?
    ensures r.ok ==> r == Answer(true, "ok", Some(NoticeInfo(
      Strip(Field(n, "id").s), Level(Field(n, "level")), Field(n, "force") == JBool(true),
      TextOr(Field(n, "title")), TextOr(Field(n, "content")))))
    ensures !r.ok ==> r == Answer(false, "invalid response: \"id\"", None)
  {
    match TrimmedText(Field(n, "id"))
    case None => Answer(false, "invalid response: \"id\"", None)
    case Some(nid) =>
      Answer(true, "ok", Some(NoticeInfo(
        nid, Level(Field(n, "level")), Field(n, "force") == JBool(true),
        TextOr(Field(n, "title")), TextOr(Field(n, "content")))))
  }

  /** The decoded body of a 200 answer: the notice is `body["notice"]` when
      that is truthy, the body itself otherwise; a body that is not a dict
      makes `obj.get` raise. */
  function NoticeBody(doc: Json): (r: Result<Answer<NoticeInfo>>)
    ensures r.Err? <==> !doc.JObject?
    ensures r.Err? ==> r.error == NoGet(doc)
  {
    var ms :- AsObject(doc);
    var n := Or(Field(ms, "notice"), doc);
    if !n.JObject? then Ok(Answer(false, "invalid response: notice is not object", None))
    else Ok(NoticeOf(n.members))
  }

  /** `fetch_latest_notice` given the reply to its `GET`. */
  function NoticeFromReply(reply: Reply): (r: Result<Answer<NoticeInfo>>)
    ensures reply.Raised? ==> r == Ok(Answer(false, "request failed: " + reply.reason, None))
    ensures RepliedWith(reply, 204) ==> r == Ok(Answer(true, "no notice", None))
    ensures reply.Replied? && reply.response.status !in {200, 204} ==>
      r == Ok(Answer(false, "bad status: " + IntToString(reply.response.status) + " / " + TextHead(reply.response), None))
    ensures RepliedWith(reply, 200) && reply.response.json.Err? ==>
      r == Ok(Answer(false, "json parse failed: " + reply.response.json.error.msg, None))
    ensures RepliedWith(reply, 200) && reply.response.json.Ok? ==> r == NoticeBody(reply.response.json.value)
    ensures r.Ok? ==> (r.value.info.Some? <==> r.value.ok && !RepliedWith(reply, 204))
  {
    match reply
    case Raised(reason) => Ok(Answer(false, "request failed: " + reason, None))
    case Replied(res) =>
      if res.status == 204 then Ok(Answer(true, "no notice", None))
      else if res.status != 200 then
        Ok(Answer(false, "bad status: " + IntToString(res.status) + " / " + TextHead(res), None))
      else match res.json
        case Err(e) => Ok(Answer(false, "json parse failed: " + e.msg, None))
        case Ok(doc) => NoticeBody(doc)
  }

  /** `fetch_latest_notice(server_base_url, program_id)`. */
  function FetchLatestNotice(net: Network, server: string, programId: string): Result<Answer<NoticeInfo>> {
    NoticeFromReply(net.get(NoticeUrl(server, programId)))
  }

  /** The server may wrap the notice as `{"notice": {...}}` or send it bare:
      both give the same answer. */
  lemma WrappedNoticeIsBare(n: seq<Member>)
    requires n != [] && Get(n, "notice").None?
    ensures NoticeBody(JObject([Member("notice", JObject(n))])) == NoticeBody(JObject(n))
  {
    assert Field([Member("notice", JObject(n))], "notice") == JObject(n);
    assert Field(n, "notice") == JNull;
  }

  /** A notice whose texts are already as validation leaves them: a trimmed,
      non-blank id, a trimmed, non-blank upper-case level, trimmed title and
      content. */
  predicate CleanNotice(info: NoticeInfo) {
    && info.noticeId != [] && Strip(info.noticeId) == info.noticeId
    && info.level != [] && Strip(info.level) == info.level
    && (forall i :: 0 <= i < |info.level| ==> !('a' <= info.level[i] <= 'z'))
    && Strip(info.title) == info.title && Strip(info.content) == info.content
  }

  /** The notice object a server sends. */
  function NoticeDoc(info: NoticeInfo): seq<Member> {
    [Member("id", JString(info.noticeId)),
     Member("level", JString(info.level)),
     Member("force", JBool(info.force)),
     Member("title", JString(info.title)),
     Member("content", JString(info.content))]
  }

  lemma NoticeDocFields(info: NoticeInfo)
    ensures var n := NoticeDoc(info);
      && Field(n, "id") == JString(info.noticeId)
      && Field(n, "level") == JString(info.level)
      && Field(n, "force") == JBool(info.force)
      && Field(n, "title") == JString(info.title)
      && Field(n, "content") == JString(info.content)
  {
    var n := NoticeDoc(info);
    NoticeDocField(info, 0);
    NoticeDocField(info, 1);
    NoticeDocField(info, 2);
    NoticeDocField(info, 3);
    NoticeDocField(info, 4);
  }

  /** Each key of the notice object occurs once, so `get` finds its value. */
  lemma NoticeDocField(info: NoticeInfo, i: int)
    requires 0 <= i < 5
    ensures Field(NoticeDoc(info), NoticeDoc(info)[i].key) == NoticeDoc(info)[i].value
  {
    var n := NoticeDoc(info);
    var heads := ['i', 'l', 'f', 't', 'c'];
    assert forall j :: 0 <= j < 5 ==> n[j].key != [] && n[j].key[0] == heads[j];
    GetAt(n, i);
  }

  lemma UpperOfUpper(s: string)
    requires forall i :: 0 <= i < |s| ==> !('a' <= s[i] <= 'z')
    ensures Upper(s) == s
  {
  }

  lemma TextOrTrimmed(t: string)
    requires Strip(t) == t
    ensures TextOr(JString(t)) == t
  {
    if t == [] {
      assert Or(JString(t), JString("")) == JString("");
    } else {
      assert Or(JString(t), JString("")) == JString(t);
    }
  }

  lemma NoticeOfDoc(info: NoticeInfo)
    requires CleanNotice(info)
    ensures NoticeOf(NoticeDoc(info)) == Answer(true, "ok", Some(info))
  {
    var n := NoticeDoc(info);
    NoticeDocFields(info);
    assert TrimmedText(Field(n, "id")) == Some(info.noticeId);
    UpperOfUpper(info.level);
    assert TrimmedText(JString(info.level)) == Some(info.level);
    assert Level(Field(n, "level")) == info.level;
    TextOrTrimmed(info.title);
    TextOrTrimmed(info.content);
    assert (Field(n, "force") == JBool(true)) == info.force;
  }

  lemma NoNoticeKey(info: NoticeInfo)
    ensures Get(NoticeDoc(info), "notice").None?
    ensures NoticeBody(JObject(NoticeDoc(info))) == Ok(NoticeOf(NoticeDoc(info)))
  {
    var n := NoticeDoc(info);
    assert |n[0].key| == 2 && |n[1].key| == 5 && |n[2].key| == 5 && |n[3].key| == 5 && |n[4].key| == 7;
  }

  /** Validation gives back exactly the notice the server described, whether
      it is wrapped in `{"notice": ...}` or not. */
  lemma NoticeRoundTrip(info: NoticeInfo)
    requires CleanNotice(info)
    ensures NoticeBody(JObject([Member("notice", JObject(NoticeDoc(info)))])) == Ok(Answer(true, "ok", Some(info)))
    ensures NoticeBody(JObject(NoticeDoc(info))) == Ok(Answer(true, "ok", Some(info)))
  {
    var n := NoticeDoc(info);
    NoNoticeKey(info);
    WrappedNoticeIsBare(n);
    NoticeOfDoc(info);
  }

  /** A notice that is present but falsy (`null`, `{}`, `""`) falls back to
      the body, which then must carry the `id` itself. */
  lemma FalsyNoticeUsesBody(ms: seq<Member>)
    requires !Truthy(Field(ms, "notice"))
    ensures NoticeBody(JObject(ms)) == Ok(NoticeOf(ms))
  {
  }
}
