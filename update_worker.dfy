/** The launcher's update run (launcher/workers/update_worker.py): read the
    installed-version record, ask the server for the latest release, compare,
    and when behind download the release, unpack it into a staging directory,
    swap it into place, record the new version and clean up. The worker's
    signals are an appended event log; the requests it makes are a second log. */
module Updater {
  import opened Common
  import opened FileSystem
  import opened Http
  import opened Versioning
  import opened State
  import opened Api
  import opened Downloader
  import opened Installer

  // ---------------------------------------------------------------------------
  // Layout
  // ---------------------------------------------------------------------------

  /** `LauncherPaths`: the launcher's directories. */
  datatype LauncherPaths = LauncherPaths(baseDir: Path, dataDir: Path, versionsDir: Path, currentJson: Path)

  /** `get_paths()` once the base directory is known. */
  function GetPaths(base: Path): LauncherPaths {
    LauncherPaths(base, base + ["data"], base + ["versions"], base + ["data", "current.json"])
  }

  function DownloadsDir(paths: LauncherPaths): Path {
    paths.baseDir + ["downloads_tmp"]
  }

  function StagingRoot(paths: LauncherPaths): Path {
    paths.versionsDir + ["_staging"]
  }

  /** `downloads_tmp / f"{program_id}_{version}.zip"`, with `program_id`
      taken to be one plain name. */
  function ZipPath(paths: LauncherPaths, st: CurrentState, latest: LatestInfo): Path {
    DownloadsDir(paths) + [st.programId + "_" + latest.latestVersion + ".zip"]
  }

  /** `versions / "_staging" / program_id / dirname`, with `program_id`
      taken to be one plain name. */
  function StagingDir(paths: LauncherPaths, st: CurrentState, dirname: string): Path {
    StagingRoot(paths) + [st.programId, dirname]
  }

  function TargetDir(paths: LauncherPaths, dirname: string): Path {
    paths.versionsDir + [dirname]
  }

  const ExeName: string := "CrawlProgram.exe"

  /** Everything an update run may change lies at or below one of these. */
  function Roots(paths: LauncherPaths): set<Path> {
    {paths.versionsDir, DownloadsDir(paths)}
      + (if paths.currentJson == [] then {} else {paths.currentJson, TmpPath(paths.currentJson)})
  }

  /** The version directory, the download directory, the record and its
      temporary file are four separate places: none lies at or below another. */
  predicate Separated(paths: LauncherPaths) {
    var v, d, c := paths.versionsDir, DownloadsDir(paths), paths.currentJson;
    && c != [] && Independent(v, d) && Independent(c, v) && Independent(c, d)
    && Independent(TmpPath(c), v) && Independent(TmpPath(c), d)
  }

  /** The layout `get_paths` builds keeps the record apart from the
      directories the update rewrites. */
  lemma LayoutIsSeparated(base: Path)
    ensures Separated(GetPaths(base))
  {
    var paths := GetPaths(base);
    var c, v, d := paths.currentJson, paths.versionsDir, DownloadsDir(paths);
    var t := TmpPath(c);
    assert Parent(t) == base + ["data"];
    assert t[|base|] == Parent(t)[|base|];
    assert c[|base|] == "data" && t[|base|] == "data";
    assert v[|base|] == "versions" && d[|base|] == "downloads_tmp";
  }

  /** A version directory name never collides with `_staging` or with a
      backup name, so staging, target and backup are three separate places. */
  lemma StagingIsSeparate(paths: LauncherPaths, st: CurrentState, dirname: string)
    requires dirname != [] && dirname[0] == 'v'
    ensures Separate(StagingDir(paths, st, dirname), TargetDir(paths, dirname))
  {
    var staging, target := StagingDir(paths, st, dirname), TargetDir(paths, dirname);
    var v := paths.versionsDir;
    assert staging[|v|] == "_staging" && target[|v|] == dirname;
    assert "_staging"[0] != dirname[0];
    var b := Backup(target);
    assert b == v + [dirname + "__bak"];
    assert b[|v|] == dirname + "__bak";
    assert (dirname + "__bak")[0] == 'v';
  }

  /** Staging, target and backup all lie below the version directory, and
      the archive below the download directory. */
  lemma Placed(paths: LauncherPaths, st: CurrentState, latest: LatestInfo, dirname: string)
    ensures paths.versionsDir <= StagingDir(paths, st, dirname)
    ensures paths.versionsDir <= TargetDir(paths, dirname)
    ensures paths.versionsDir <= Backup(TargetDir(paths, dirname))
    ensures paths.versionsDir <= StagingRoot(paths)
    ensures DownloadsDir(paths) <= ZipPath(paths, st, latest)
  {
    var v := paths.versionsDir;
    assert StagingDir(paths, st, dirname)[..|v|] == v;
    assert Backup(TargetDir(paths, dirname)) == v + [dirname + "__bak"];
    assert Backup(TargetDir(paths, dirname))[..|v|] == v;
    assert ZipPath(paths, st, latest)[..|DownloadsDir(paths)|] == DownloadsDir(paths);
  }

  /** An executable in staging reappears at the same relative place below the
      target once the target holds what staging held. */
  lemma ExeMoves(s1: Tree, s2: Tree, staging: Path, target: Path, p: Path)
    requires ExeAt(s1, staging, ExeName, p)
    requires Subtree(s2, target) == Subtree(s1, staging)
    ensures ExeAt(s2, target, ExeName, target + p[|staging|..])
  {
    var r := p[|staging|..];
    assert staging + r == p;
    SubtreeAt(s1, staging, r);
    SubtreeAt(s2, target, r);
  }

  /** Below a version directory lies neither the record, its temporary file,
      the download directory nor the staging root. */
  lemma InstalledAway(paths: LauncherPaths, dirname: string, q: Path)
    requires Separated(paths) && dirname != [] && dirname[0] == 'v'
    requires TargetDir(paths, dirname) <= q
    ensures Away(q, {paths.currentJson, TmpPath(paths.currentJson)})
    ensures Away(q, {DownloadsDir(paths), StagingRoot(paths)})
  {
    var v, c, t := paths.versionsDir, paths.currentJson, TargetDir(paths, dirname);
    assert v <= q && q[|v|] == dirname by {
      assert t[..|v|] == v && t[|v|] == dirname && t <= q;
    }
    assert !(c <= q) by {
      PrefixesComparable(c, v, q);
    }
    assert !(TmpPath(c) <= q) by {
      PrefixesComparable(TmpPath(c), v, q);
    }
    assert !(DownloadsDir(paths) <= q) by {
      PrefixesComparable(DownloadsDir(paths), v, q);
    }
    assert !(StagingRoot(paths) <= q) by {
      var s := StagingRoot(paths);
      assert s[|v|][0] == '_';
      assert s[|v|] != q[|v|];
    }
  }

  /** A download into the archive path changes nothing outside the version
      and download directories. */
  lemma DownloadFrame(paths: LauncherPaths, st: CurrentState, latest: LatestInfo, fs: Tree, locked: set<Path>, reply: Reply)
    ensures var zip := ZipPath(paths, st, latest);
      Keeps(fs, DownloadOutcome(fs, locked, reply, zip).0, {paths.versionsDir, DownloadsDir(paths)})
  {
    var zip := ZipPath(paths, st, latest);
    DownloadKeeps(fs, locked, reply, zip);
    ZipFrame(paths, st, latest, fs, DownloadOutcome(fs, locked, reply, zip).0);
  }

  lemma ZipFrame(paths: LauncherPaths, st: CurrentState, latest: LatestInfo, a: Tree, b: Tree)
    requires var zip := ZipPath(paths, st, latest); Keeps(a, b, {zip, PartPath(zip)})
    ensures Keeps(a, b, {paths.versionsDir, DownloadsDir(paths)})
  {
    var zip, d := ZipPath(paths, st, latest), DownloadsDir(paths);
    assert Parent(zip) == d;
    assert PartPath(zip)[..|d|] == d;
    KeepsUnder(a, b, {zip, PartPath(zip)}, {paths.versionsDir, d}, d);
  }

  /** A cleanup of the download directory and the staging root changes
      nothing outside the version and download directories. */
  lemma CleanupFrame(paths: LauncherPaths, a: Tree, b: Tree)
    requires Keeps(a, b, {DownloadsDir(paths), StagingRoot(paths)})
    ensures Keeps(a, b, {paths.versionsDir, DownloadsDir(paths)})
  {
    var v, d, sr := paths.versionsDir, DownloadsDir(paths), StagingRoot(paths);
    assert sr[..|v|] == v;
    forall q | q in a && Away(q, {v, d})
      ensures q in b && b[q] == a[q]
    {
      PrefixTransitive(v, sr, q);
      assert Away(q, {d, sr});
    }
  }

  /** The record lies away from everything the install step rewrites. */
  lemma RecordAway(paths: LauncherPaths)
    requires Separated(paths)
    ensures Away(paths.currentJson, {paths.versionsDir, DownloadsDir(paths)})
    ensures Away(paths.currentJson, {DownloadsDir(paths), StagingRoot(paths)})
  {
    var v, c := paths.versionsDir, paths.currentJson;
    assert StagingRoot(paths)[..|v|] == v;
    PrefixTransitive(v, StagingRoot(paths), c);
  }

  /** Once the record holds a file, reading it depends on that entry alone. */
  lemma ReadSameEntry(a: Tree, b: Tree, p: Path)
    requires IsFile(a, p) && p in b && b[p] == a[p]
    ensures ReadCurrentState(b, p) == ReadCurrentState(a, p)
  {
  }

  // ---------------------------------------------------------------------------
  // Events, requests and results
  // ---------------------------------------------------------------------------

  /** The stages announced through `sig_status`, in the order the run passes
      them. */
  datatype Stage =
    | ReadingState | QueryingLatest | Probing | Downloading
    | Unzipping | Installing | SavingVersion | CleaningUp

  const Order: seq<Stage> :=
    [ReadingState, QueryingLatest, Probing, Downloading, Unzipping, Installing, SavingVersion, CleaningUp]

  /** The fixed progress points after the download. */
  const Milestones: seq<int> := [85, 92, 96, 98, 100]

  /** `UpdateResult`. */
  datatype UpdateResult = UpdateResult(
    ok: bool,
    message: string,
    exePath: Option<Path>,
    didRun: bool,
    updateAvailable: bool,
    latestVersion: Option<string>,
    assetUrl: Option<string>)

  /** `UpdateResult(False, msg, exe, False)` with the remaining defaults. */
  function Failure(msg: string, exe: Option<Path>): UpdateResult {
    UpdateResult(false, msg, exe, false, false, None, None)
  }

  /** One emission on `sig_status`, `sig_log`, `sig_progress` or `sig_done`. */
  datatype Event = Status(stage: Stage) | LogLine(line: string) | Progress(percent: int) | Done(result: UpdateResult)

  /** One HTTP request. */
  datatype Request = Get(url: string) | Head(url: string)

  /** The values sent on `sig_progress`, in order. */
  function ProgressOf(events: seq<Event>): seq<int> {
    if events == [] then []
    else
      var e := events[|events| - 1];
      ProgressOf(events[..|events| - 1]) + (if e.Progress? then [e.percent] else [])
  }

  /** The stages sent on `sig_status`, in order. */
  function StagesOf(events: seq<Event>): seq<Stage> {
    if events == [] then []
    else
      var e := events[|events| - 1];
      StagesOf(events[..|events| - 1]) + (if e.Status? then [e.stage] else [])
  }

  /** How many times `sig_done` was emitted. */
  function DoneCount(events: seq<Event>): nat {
    if events == [] then 0
    else DoneCount(events[..|events| - 1]) + (if events[|events| - 1].Done? then 1 else 0)
  }

  /** Appending one event extends exactly the view it belongs to. */
  lemma Appended(events: seq<Event>, e: Event)
    ensures ProgressOf(events + [e]) == ProgressOf(events) + (if e.Progress? then [e.percent] else [])
    ensures StagesOf(events + [e]) == StagesOf(events) + (if e.Status? then [e.stage] else [])
    ensures DoneCount(events + [e]) == DoneCount(events) + (if e.Done? then 1 else 0)
  {
    assert (events + [e])[..|events|] == events;
  }

  /** `_progress(p)`: the value sent is `max(0, min(100, p))`. */
  function Clamp(p: int): (r: int)
    ensures 0 <= r <= 100
    ensures 0 <= p <= 100 ==> r == p
    ensures p < 0 ==> r == 0
    ensures p > 100 ==> r == 100
  {
    var m := if p < 100 then p else 100;
    if 0 < m then m else 0
  }

  /** What `on_dl_progress` sends for the download's `(written, total)`
      reports: `written * 80 / total`, clamped, for each report with a
      positive total. */
  function DownloadPercents(calls: seq<(int, int)>): (ps: seq<int>)
    ensures |ps| <= |calls|
    ensures forall i :: 0 <= i < |ps| ==> 0 <= ps[i] <= 100
  {
    if calls == [] then []
    else
      var c := calls[|calls| - 1];
      DownloadPercents(calls[..|calls| - 1]) + (if c.1 > 0 then [Clamp(c.0 * 80 / c.1)] else [])
  }

  lemma MulMonotone(t: int, x: int, y: int)
    requires t >= 0 && x <= y
    ensures t * x <= t * y
  {
    assert t * y - t * x == t * (y - x);
  }

  lemma DivMonotone(a: int, b: int, t: int)
    requires 0 <= a <= b && t > 0
    ensures a / t <= b / t
  {
    var qa, qb := a / t, b / t;
    assert t * qa <= b;
    assert b < t * (qb + 1);
    if qa > qb {
      MulMonotone(t, qb + 1, qa);
    }
  }

  /** `written * 80 / total` for `0 <= written <= total` lies in 0..80 and
      grows with `written`. */
  lemma Percent(a: int, b: int, t: int)
    requires 0 <= a <= b <= t && t > 0
    ensures 0 <= a * 80 / t <= b * 80 / t <= 80
  {
    DivMonotone(a * 80, b * 80, t);
    DivMonotone(b * 80, t * 80, t);
    assert (t * 80) / t == 80;
  }

  /** Reports whose running total rises and never passes the announced total
      give percentages that never fall and stay within 0..80; a total of 0 gives
      none. */
  lemma {:induction false} PercentsRise(calls: seq<(int, int)>, t: int)
    requires forall i :: 0 <= i < |calls| ==> calls[i].1 == t && 0 <= calls[i].0 <= t
    requires forall i, j :: 0 <= i < j < |calls| ==> calls[i].0 <= calls[j].0
    ensures var ps := DownloadPercents(calls);
      && |ps| == (if t > 0 then |calls| else 0)
      && (forall i :: 0 <= i < |ps| ==> 0 <= ps[i] <= 80)
      && (forall i, j :: 0 <= i < j < |ps| ==> ps[i] <= ps[j])
  {
    if calls != [] {
      var init := calls[..|calls| - 1];
      assert forall i :: 0 <= i < |init| ==> init[i] == calls[i];
      PercentsRise(init, t);
      if t > 0 {
        var ps0 := DownloadPercents(init);
        var w := calls[|calls| - 1].0;
        Percent(0, w, t);
        var last := w * 80 / t;
        assert DownloadPercents(calls) == ps0 + [last];
        forall i | 0 <= i < |ps0| ensures ps0[i] <= last {
          PercentAt(init, t, i);
          Percent(init[i].0, w, t);
        }
      }
    }
  }

  /** With a positive total, the `i`-th percentage belongs to the `i`-th report. */
  lemma {:induction false} PercentAt(calls: seq<(int, int)>, t: int, i: int)
    requires t > 0 && 0 <= i < |calls|
    requires forall k :: 0 <= k < |calls| ==> calls[k].1 == t && 0 <= calls[k].0 <= t
    ensures |DownloadPercents(calls)| == |calls|
    ensures DownloadPercents(calls)[i] == Clamp(calls[i].0 * 80 / t)
  {
    var init := calls[..|calls| - 1];
    if i < |calls| - 1 {
      PercentAt(init, t, i);
    } else if init != [] {
      PercentAt(init, t, 0);
    }
  }

  /** The download's own reports satisfy `PercentsRise` whenever the server's
      Content-Length is at least the body it sends: the progress bar then
      climbs from 0 to at most 80 during the download. */
  lemma DownloadProgressRises(chunks: seq<seq<byte>>, total: int)
    requires |Received(chunks)| <= total
    ensures var ps := DownloadPercents(ProgressCalls(chunks, total));
      && (forall i :: 0 <= i < |ps| ==> 0 <= ps[i] <= 80)
      && (forall i, j :: 0 <= i < j < |ps| ==> ps[i] <= ps[j])
  {
    ProgressCallsRise(chunks, total);
    PercentsRise(ProgressCalls(chunks, total), total);
  }

  /** How many milestones have been sent once `k` stages were announced. */
  function Reached(k: nat): nat {
    if k <= 4 then 0 else if k >= 8 then 5 else k - 4
  }

  /** Two adjacent slices appended one after the other are one slice. */
  lemma SliceJoin<T>(a: seq<T>, s: seq<T>, i: nat, j: nat, k: nat)
    requires i <= j <= k <= |s|
    ensures a + s[i..j] + s[j..k] == a + s[i..k]
  {
    assert s[i..j] + s[j..k] == s[i..k];
  }

  /** A run that announced at most the download stages without downloading
      sent no further progress. */
  lemma NoDownload(p: seq<int>, k: nat)
    requires k <= 4
    ensures p + DownloadPercents([]) + Milestones[0..Reached(k)] == p
  {
  }

  /** A prefix of a prefix is a prefix. */
  lemma PrefixChain<T>(a: seq<T>, b: seq<T>, c: seq<T>)
    requires |a| <= |b| <= |c| && b[..|a|] == a && c[..|b|] == b
    ensures c[..|a|] == a
  {
    assert c[..|a|] == c[..|b|][..|a|];
  }

  /** Python's `str()` of a bool and of an optional string. */
  function PyBool(b: bool): string {
    if b then "True" else "False"
  }

  function PyOptText(t: Option<string>): string {
    if t.Some? then t.value else "None"
  }

  function PyOptPath(p: Option<Path>): string {
    if p.Some? then PathText(p.value) else "None"
  }

  /** The requests `probe_url(url)` makes: a `HEAD`, and a `GET` unless the
      `HEAD` was answered with 200. */
  function ProbeRequests(net: Network, url: string): (rs: seq<Request>)
    ensures |rs| >= 1 && rs[0] == Head(url)
    ensures |rs| == 1 <==> RepliedOk(net.head(url))
  {
    [Head(url)] + (if RepliedOk(net.head(url)) then [] else [Get(url)])
  }

  // ---------------------------------------------------------------------------
  // The decision before anything is written
  // ---------------------------------------------------------------------------

  /** Where the first part of `_run_impl` ends: the server query failed, the
      installed version is current or newer, or an update is due. */
  datatype Plan =
    | Unreachable(st: CurrentState, msg: string)
    | UpToDate(st: CurrentState, latest: LatestInfo, cmp: int)
    | Behind(st: CurrentState, latest: LatestInfo)

  /** An accepted `fetch_latest` answer carries a clean release. */
  lemma AnswerIsClean(reply: Reply)
    requires LatestFromReply(reply).Ok? && LatestFromReply(reply).value.ok
    ensures LatestFromReply(reply).value.info.Some? && Clean(LatestFromReply(reply).value.info.value)
  {
    LatestIsClean(reply.response.json.value);
  }

  /** Query the server for the installed program and compare: an exception
      from either step is `Err`. */
  function PlanFor(net: Network, st: CurrentState): (r: Result<Plan>)
    ensures r.Ok? ==> r.value.st == st
    ensures FetchLatest(net, st.serverUrl, st.programId).Err? ==>
      r == Err(FetchLatest(net, st.serverUrl, st.programId).error)
    ensures r.Ok? && r.value.Unreachable? ==>
      var a := FetchLatest(net, st.serverUrl, st.programId);
      a.Ok? && !a.value.ok && a.value.msg == r.value.msg
    ensures r.Ok? && !r.value.Unreachable? ==>
      && FetchLatest(net, st.serverUrl, st.programId) == Ok(Answer(true, "ok", Some(r.value.latest)))
      && Clean(r.value.latest)
    ensures r.Ok? && r.value.UpToDate? ==>
      CompareVersions(st.version, r.value.latest.latestVersion) == Ok(r.value.cmp) && r.value.cmp >= 0
    ensures r.Ok? && r.value.Behind? ==>
      && ParseSemver(st.version).Ok? && ParseSemver(r.value.latest.latestVersion).Ok?
      && Precedes(ParseSemver(st.version).value, ParseSemver(r.value.latest.latestVersion).value)
  {
    var a :- FetchLatest(net, st.serverUrl, st.programId);
    if !a.ok || a.info.None? then Ok(Unreachable(st, a.msg))
    else
      AnswerIsClean(net.get(LatestUrl(st.serverUrl, st.programId)));
      var cmp :- CompareVersions(st.version, a.info.value.latestVersion);
      if cmp >= 0 then Ok(UpToDate(st, a.info.value, cmp)) else Ok(Behind(st, a.info.value))
  }

  /** Read the record, then `PlanFor`; the record is read before any request. */
  function PlanOf(fs: Tree, net: Network, current: Path): (r: Result<Plan>)
    ensures ReadCurrentState(fs, current).Err? ==> r == Err(ReadCurrentState(fs, current).error)
    ensures ReadCurrentState(fs, current).Ok? ==> r == PlanFor(net, ReadCurrentState(fs, current).value)
    ensures r.Ok? ==> ReadCurrentState(fs, current) == Ok(r.value.st) && Canonical(r.value.st)
  {
    var st :- ReadCurrentState(fs, current);
    StateOfIsCanonical(fs, current);
    PlanFor(net, st)
  }

  lemma StateOfIsCanonical(fs: Tree, current: Path)
    requires ReadCurrentState(fs, current).Ok?
    ensures Canonical(ReadCurrentState(fs, current).value)
  {
  }

  /** The update is actually carried out. */
  predicate Installs(fs: Tree, net: Network, current: Path, autoUpdate: bool) {
    autoUpdate && PlanOf(fs, net, current).Ok? && PlanOf(fs, net, current).value.Behind?
  }

  // ---------------------------------------------------------------------------
  // _find_exe
  // ---------------------------------------------------------------------------

  /** `p` is a file named `name` somewhere below `root`, as `root.rglob(name)`
      followed by `is_file()` accepts it. */
  predicate ExeAt(fs: Tree, root: Path, name: string, p: Path) {
    p in fs && fs[p].File? && |root| < |p| && root <= p && p[|p| - 1] == name
  }

  /** `e` is an answer `_find_exe(root, "CrawlProgram.exe")` may give. */
  predicate Found(fs: Tree, root: Path, e: Option<Path>) {
    match e
    case Some(p) => ExeAt(fs, root, ExeName, p)
    case None => forall p :: p in fs ==> !ExeAt(fs, root, ExeName, p)
  }

  /** `_find_exe(root, name)`: some file of that name below `root`, or `None`
      when there is none. Which one `rglob` yields first is left open. */
  method FindExe(disk: Disk, root: Path, name: string) returns (r: Option<Path>)
    ensures r.Some? ==> ExeAt(disk.fs, root, name, r.value)
    ensures r.None? <==> forall p :: p in disk.fs ==> !ExeAt(disk.fs, root, name, p)
  {
    if exists p :: p in disk.fs && ExeAt(disk.fs, root, name, p) {
      var p :| p in disk.fs && ExeAt(disk.fs, root, name, p);
      return Some(p);
    }
    return None;
  }

  /** The directory `_resolve_latest_exe_from_state` searches. */
  function LocalRoot(paths: LauncherPaths, st: CurrentState): Path
    requires VersionToDirname(st.version).Ok?
  {
    TargetDir(paths, VersionToDirname(st.version).value)
  }

  /** `_resolve_latest_exe_from_state(st)`: a blank version raises, as
      `version_to_dirname` does; otherwise the executable under
      `versions/<dirname>`. */
  method ResolveLatestExe(disk: Disk, paths: LauncherPaths, st: CurrentState) returns (r: Result<Option<Path>>)
    ensures r.Err? <==> Strip(st.version) == []
    ensures r.Ok? ==> Found(disk.fs, LocalRoot(paths, st), r.value)
  {
    var dirname := VersionToDirname(st.version);
    if dirname.Err? {
      return Err(dirname.error);
    }
    var exe := FindExe(disk, TargetDir(paths, dirname.value), ExeName);
    return Ok(exe);
  }

  /** The directory a clean release is installed into. */
  function InstallTarget(paths: LauncherPaths, latest: LatestInfo): Path
    requires Clean(latest)
  {
    TargetDir(paths, VersionToDirname(latest.latestVersion).value)
  }

  /** The record written after a successful swap. */
  function Updated(st: CurrentState, latest: LatestInfo): CurrentState {
    CurrentState(st.programId, latest.latestVersion, st.serverUrl)
  }

  /** The failure message an update run returns after announcing `k` stages. */
  predicate FailedAt(k: nat, m: string) {
    || (k == 2 && m == "asset_url is empty")
    || (k == 4 && StartsWith(m, "download failed: "))
    || (k == 5 && (StartsWith(m, "unzip failed: ") || m == "exe not found in zip: " + ExeName))
    || (k == 6 && StartsWith(m, "promote failed: "))
    || (k == 8 && m == "installed but exe not found")
  }

  /** The message when no update is due: the local executable is reported,
      and the run fails only when it is missing. */
  function SettledMessage(cmp: int, exe: Option<Path>): string {
    if exe.None? then "latest exe not found"
    else if cmp > 0 then "ok(local newer)"
    else "ok(up-to-date)"
  }

  /** What `run` sends on `sig_done`: an exception escaping `_run_impl` becomes
      a failed result naming it. */
  function Reported(r: Result<UpdateResult>): (u: UpdateResult)
    ensures r.Ok? ==> u == r.value
    ensures r.Err? ==> !u.ok && u.exePath.None? && StartsWith(u.message, "unexpected error: ")
  {
    match r
    case Ok(u) => u
    case Err(e) => Failure("unexpected error: " + e.msg, None)
  }

  // ---------------------------------------------------------------------------
  // The worker
  // ---------------------------------------------------------------------------

  class UpdateWorker {
    const paths: LauncherPaths
    const autoUpdate: bool
    /** Every signal emitted, in order. */
    var events: seq<Event>
    /** Every HTTP request made, in order. */
    var requests: seq<Request>

    constructor(paths: LauncherPaths, autoUpdate: bool)
      ensures this.paths == paths && this.autoUpdate == autoUpdate
      ensures events == [] && requests == []
    {
      this.paths := paths;
      this.autoUpdate := autoUpdate;
      events := [];
      requests := [];
    }

    /** `_status(s)`. */
    method SetStatus(s: Stage)
      modifies this
      ensures events == old(events) + [Status(s)] && requests == old(requests)
      ensures StagesOf(events) == StagesOf(old(events)) + [s]
      ensures ProgressOf(events) == ProgressOf(old(events)) && DoneCount(events) == DoneCount(old(events))
    {
      Appended(events, Status(s));
      events := events + [Status(s)];
    }

    /** `_log(s)`. */
    method Log(line: string)
      modifies this
      ensures events == old(events) + [LogLine(line)] && requests == old(requests)
      ensures StagesOf(events) == StagesOf(old(events))
      ensures ProgressOf(events) == ProgressOf(old(events)) && DoneCount(events) == DoneCount(old(events))
    {
      Appended(events, LogLine(line));
      events := events + [LogLine(line)];
    }

    /** `_progress(p)`: the value is clamped into 0..100. */
    method ReportProgress(p: int)
      modifies this
      ensures events == old(events) + [Progress(Clamp(p))] && requests == old(requests)
      ensures StagesOf(events) == StagesOf(old(events))
      ensures ProgressOf(events) == ProgressOf(old(events)) + [Clamp(p)]
      ensures DoneCount(events) == DoneCount(old(events))
    {
      Appended(events, Progress(Clamp(p)));
      events := events + [Progress(Clamp(p))];
    }

    /** The download callback's emissions, one `_progress` per report with a
        positive total. */
    method EmitDownloadProgress(calls: seq<(int, int)>)
      modifies this
      ensures requests == old(requests)
      ensures StagesOf(events) == StagesOf(old(events))
      ensures ProgressOf(events) == ProgressOf(old(events)) + DownloadPercents(calls)
      ensures DoneCount(events) == DoneCount(old(events))
    {
      var i := 0;
      while i < |calls|
        invariant 0 <= i <= |calls|
        invariant requests == old(requests)
        invariant StagesOf(events) == StagesOf(old(events))
        invariant ProgressOf(events) == ProgressOf(old(events)) + DownloadPercents(calls[..i])
        invariant DoneCount(events) == DoneCount(old(events))
      {
        var (written, total) := calls[i];
        assert calls[..i + 1][..i] == calls[..i];
        if total > 0 {
          ReportProgress(written * 80 / total);
        }
        i := i + 1;
      }
      assert calls[..i] == calls;
    }

    /** Probing and downloading the release into `zip`. */
    method Acquire(disk: Disk, net: Network, url: string, zip: Path)
      returns (d: Result<Download>, ghost calls: seq<(int, int)>)
      requires disk.Valid() && zip != []
      modifies this, disk
      ensures disk.Valid()
      ensures (disk.fs, d, calls) == DownloadOutcome(old(disk.fs), disk.locked, net.get(url), zip)
      ensures requests == old(requests) + ProbeRequests(net, url) + (if d.Ok? then [Get(url)] else [])
      ensures |requests| >= |old(requests)| && requests[..|old(requests)|] == old(requests)
      ensures StagesOf(events) == StagesOf(old(events)) + [Probing, Downloading]
      ensures ProgressOf(events) == ProgressOf(old(events)) + DownloadPercents(calls)
      ensures DoneCount(events) == DoneCount(old(events))
    {
      ghost var q0 := requests;
      Probe(net, url);
      ghost var q1 := requests;
      var cs;
      d, cs := DownloadFile(disk, net, url, zip);
      calls := cs;
      Downloaded(url, zip, d, cs);
      PrefixChain(q0, q1, requests);
    }

    /** `probe_url` with its status and log lines, and the status that
        announces the download. */
    method Probe(net: Network, url: string)
      modifies this
      ensures requests == old(requests) + ProbeRequests(net, url)
      ensures |requests| >= |old(requests)| && requests[..|old(requests)|] == old(requests)
      ensures StagesOf(events) == StagesOf(old(events)) + [Probing, Downloading]
      ensures ProgressOf(events) == ProgressOf(old(events)) && DoneCount(events) == DoneCount(old(events))
    {
      SetStatus(Probing);
      var probe := ProbeUrl(net, url);
      requests := requests + ProbeRequests(net, url);
      Log("[launcher] probe.ok=" + PyBool(probe.ok));
      Log("[launcher] probe.msg=" + probe.msg);
      SetStatus(Downloading);
    }

    /** What follows `download_file`: the request it made, the progress its
        callback sent, and the log lines. */
    method Downloaded(url: string, zip: Path, d: Result<Download>, calls: seq<(int, int)>)
      modifies this
      ensures requests == old(requests) + (if d.Ok? then [Get(url)] else [])
      ensures |requests| >= |old(requests)| && requests[..|old(requests)|] == old(requests)
      ensures StagesOf(events) == StagesOf(old(events))
      ensures ProgressOf(events) == ProgressOf(old(events)) + DownloadPercents(calls)
      ensures DoneCount(events) == DoneCount(old(events))
    {
      if d.Ok? {
        requests := requests + [Get(url)];
      }
      EmitDownloadProgress(calls);
      if d.Ok? {
        LogDownload(d.value, zip);
      }
    }

    /** The four log lines after `download_file` returned. */
    method LogDownload(d: Download, zip: Path)
      modifies this
      ensures requests == old(requests)
      ensures StagesOf(events) == StagesOf(old(events))
      ensures ProgressOf(events) == ProgressOf(old(events)) && DoneCount(events) == DoneCount(old(events))
    {
      Log("[launcher] download.ok=" + PyBool(d.ok));
      Log("[launcher] download.msg=" + d.msg);
      Log("[launcher] download.path=" + PathText(zip));
      Log("[launcher] download.bytes=" + IntToString(d.written));
    }
  
    /** Unpacking the downloaded archive into `staging` and looking for the
        executable there. `fail` is the result returned when either step
        fails; `exe` is the executable found otherwise. */
    method Unpack(disk: Disk, unzip: Unzip, zip: Path, staging: Path, exeLocal: Option<Path>)
      returns (fail: Option<UpdateResult>, ghost exe: Path)
      requires disk.Valid()
      modifies this, disk
      ensures disk.Valid()
      ensures |disk.history| >= |old(disk.history)| && disk.history[..|old(disk.history)|] == old(disk.history)
      ensures requests == old(requests)
      ensures StagesOf(events) == StagesOf(old(events)) + [Unzipping]
      ensures ProgressOf(events) == ProgressOf(old(events)) + [85]
      ensures DoneCount(events) == DoneCount(old(events))
      ensures fail.Some? ==> fail.value == Failure(fail.value.message, exeLocal)
      ensures fail.Some? ==>
        StartsWith(fail.value.message, "unzip failed: ") || fail.value.message == "exe not found in zip: " + ExeName
      ensures fail.Some? && fail.value.message == "exe not found in zip: " + ExeName ==> Found(disk.fs, staging, None)
      ensures fail.None? ==> ExeAt(disk.fs, staging, ExeName, exe)
      ensures (fail.None? || fail.value.message == "exe not found in zip: " + ExeName) && !(staging <= zip) ==>
        && ArchiveOf(old(disk.fs), zip, unzip).Some?
        && disk.fs == Unpacked(old(disk.fs), disk.locked, staging, ArchiveOf(old(disk.fs), zip, unzip).value)
      ensures Keeps(old(disk.fs), disk.fs, {staging})
    {
      exe := [];
      SetStatus(Unzipping);
      ReportProgress(85);
      var ok, msg := UnzipToStaging(disk, zip, staging, unzip);
      Log("[launcher] unzip.ok=" + PyBool(ok));
      Log("[launcher] unzip.msg=" + msg);
      Log("[launcher] unzip.dir=" + PathText(staging));
      if !ok {
        assert ("unzip failed: " + msg)[0] != ("exe not found in zip: " + ExeName)[0];
        return Some(Failure("unzip failed: " + msg, exeLocal)), exe;
      }
      var found := FindExe(disk, staging, ExeName);
      Log("[launcher] exe_found=" + PyOptPath(found));
      if found.None? {
        return Some(Failure("exe not found in zip: " + ExeName, exeLocal)), exe;
      }
      exe := found.value;
      fail := None;
    }

    /** Swapping the staged tree into `target`. */
    method Promote(disk: Disk, staging: Path, target: Path, exeLocal: Option<Path>)
      returns (fail: Option<UpdateResult>)
      requires disk.Valid() && Separate(staging, target)
      modifies this, disk
      ensures disk.Valid()
      ensures |disk.history| >= |old(disk.history)| && disk.history[..|old(disk.history)|] == old(disk.history)
      ensures requests == old(requests)
      ensures StagesOf(events) == StagesOf(old(events)) + Order[5..6]
      ensures ProgressOf(events) == ProgressOf(old(events)) + Milestones[1..2]
      ensures DoneCount(events) == DoneCount(old(events))
      ensures fail.Some? ==>
        fail.value == Failure(fail.value.message, exeLocal) && StartsWith(fail.value.message, "promote failed: ")
      ensures SwapSafe(disk.history, |old(disk.history)|, old(disk.fs), staging, target)
      ensures fail.None? ==> Subtree(disk.fs, target) == Subtree(old(disk.fs), staging)
      ensures Keeps(old(disk.fs), disk.fs, {staging, target, Backup(target)})
    {
      assert Order[5..6] == [Installing] && Milestones[1..2] == [92];
      SetStatus(Installing);
      ReportProgress(92);
      var ok, msg := PromoteStaging(disk, staging, target);
      Log("[launcher] promote.ok=" + PyBool(ok));
      Log("[launcher] promote.msg=" + msg);
      Log("[launcher] promote.target_dir=" + PathText(target));
      if !ok {
        return Some(Failure("promote failed: " + msg, exeLocal));
      }
      fail := None;
    }
  
    /** Writing the new record. */
    method Save(disk: Disk, st: CurrentState) returns (e: Option<Exc>)
      requires disk.Valid() && paths.currentJson != []
      modifies this, disk
      ensures disk.Valid()
      ensures |disk.history| >= |old(disk.history)| && disk.history[..|old(disk.history)|] == old(disk.history)
      ensures requests == old(requests)
      ensures StagesOf(events) == StagesOf(old(events)) + Order[6..7]
      ensures ProgressOf(events) == ProgressOf(old(events)) + Milestones[2..3]
      ensures DoneCount(events) == DoneCount(old(events))
      ensures AlwaysOldOrNew(disk.history, |old(disk.history)|, old(disk.fs), paths.currentJson, Doc(Record(st)))
      ensures e.None? ==> IsFile(disk.fs, paths.currentJson)
      ensures e.None? && Canonical(st) ==> ReadCurrentState(disk.fs, paths.currentJson) == Ok(st)
      ensures Keeps(old(disk.fs), disk.fs, {paths.currentJson, TmpPath(paths.currentJson)})
    {
      assert Order[6..7] == [SavingVersion] && Milestones[2..3] == [96];
      SetStatus(SavingVersion);
      ReportProgress(96);
      e := WriteCurrentState(disk, paths.currentJson, st);
      if e.None? {
        Log("[launcher] current.json updated: version=" + st.version);
      }
    }

    /** Removing the archive, the download directory and the staging root. */
    method Cleanup(disk: Disk, zip: Path)
      requires disk.Valid() && DownloadsDir(paths) <= zip
      modifies this, disk
      ensures disk.Valid()
      ensures requests == old(requests)
      ensures StagesOf(events) == StagesOf(old(events)) + Order[7..8]
      ensures ProgressOf(events) == ProgressOf(old(events)) + Milestones[3..5]
      ensures DoneCount(events) == DoneCount(old(events))
      ensures disk.fs == Cleaned(old(disk.fs), disk.locked, [zip, DownloadsDir(paths), StagingRoot(paths)])
      ensures Keeps(old(disk.fs), disk.fs, {DownloadsDir(paths), StagingRoot(paths)})
    {
      assert Order[7..8] == [CleaningUp] && Milestones[3..5] == [98] + [100];
      SetStatus(CleaningUp);
      ReportProgress(98);
      ghost var s0 := disk.fs;
      CleanupPaths(disk, [zip]);
      ghost var s1 := disk.fs;
      CleanupPaths(disk, [DownloadsDir(paths)]);
      ghost var s2 := disk.fs;
      CleanupPaths(disk, [StagingRoot(paths)]);
      Log("[launcher] cleanup done");
      ReportProgress(100);
      CleanupSteps(s0, s1, s2, disk.fs, disk.locked, zip);
    }

    lemma CleanupSteps(s0: Tree, s1: Tree, s2: Tree, s3: Tree, locked: set<Path>, zip: Path)
      requires DownloadsDir(paths) <= zip
      requires s1 == Cleaned(s0, locked, [zip]) && Keeps(s0, s1, Members([zip]))
      requires s2 == Cleaned(s1, locked, [DownloadsDir(paths)]) && Keeps(s1, s2, Members([DownloadsDir(paths)]))
      requires s3 == Cleaned(s2, locked, [StagingRoot(paths)]) && Keeps(s2, s3, Members([StagingRoot(paths)]))
      ensures s3 == Cleaned(s0, locked, [zip, DownloadsDir(paths), StagingRoot(paths)])
      ensures Keeps(s0, s3, {DownloadsDir(paths), StagingRoot(paths)})
    {
      var d, sr := DownloadsDir(paths), StagingRoot(paths);
      assert [zip, d, sr][1..] == [d, sr] && [d, sr][1..] == [sr];
      assert Members([zip]) == {zip} && Members([d]) == {d} && Members([sr]) == {sr};
      KeepsUnder(s0, s1, {zip}, {d, sr}, d);
      KeepsTrans(s0, s1, s2, {d, sr}, {d}, {d, sr});
      KeepsTrans(s0, s2, s3, {d, sr}, {sr}, {d, sr});
    }
  
    /** Everything after a good download: unpack, find the executable, swap
        it into place, record the new version, clean up and look for the
        installed executable. `k` is how many stages the run has announced
        when this returns. */
    method Deploy(disk: Disk, unzip: Unzip, st: CurrentState, latest: LatestInfo, exeLocal: Option<Path>)
      returns (r: Result<UpdateResult>, ghost k: nat)
      requires disk.Valid() && Clean(latest) && paths.currentJson != []
      modifies this, disk
      ensures disk.Valid()
      ensures 5 <= k <= 8
      ensures requests == old(requests)
      ensures StagesOf(events) == StagesOf(old(events)) + Order[4..k]
      ensures ProgressOf(events) == ProgressOf(old(events)) + Milestones[0..Reached(k)]
      ensures DoneCount(events) == DoneCount(old(events))
      ensures Keeps(old(disk.fs), disk.fs, Roots(paths))
      ensures k <= 6 ==> Keeps(old(disk.fs), disk.fs, {paths.versionsDir, DownloadsDir(paths)})
      ensures r.Err? <==> k == 7
      ensures r.Ok? && !r.value.ok ==> r.value == Failure(r.value.message, exeLocal) && FailedAt(k, r.value.message)
      ensures r.Ok? && r.value.ok ==>
        && k == 8 && r.value == UpdateResult(true, "ok(installed)", r.value.exePath, false, false, None, None)
        && r.value.exePath.Some? && ExeAt(disk.fs, InstallTarget(paths, latest), ExeName, r.value.exePath.value)
      ensures k == 8 && Separated(paths) ==> r.Ok? && r.value.ok
      ensures k == 8 && Separated(paths) && Canonical(st) ==>
        ReadCurrentState(disk.fs, paths.currentJson) == Ok(Updated(st, latest))
    {
      ghost var s0, e0 := disk.fs, events;
      var fail, k1, installed := Stage(disk, unzip, st, latest, exeLocal);
      if fail.Some? {
        KeepsMore(s0, disk.fs, {paths.versionsDir, DownloadsDir(paths)}, Roots(paths));
        return Ok(fail.value), k1;
      }
      ghost var s1 := disk.fs;
      r, k := Finish(disk, st, latest, exeLocal, installed);
      KeepsTrans(s0, s1, disk.fs, {paths.versionsDir, DownloadsDir(paths)}, Roots(paths), Roots(paths));
      SliceJoin(StagesOf(e0), Order, 4, 6, k);
      SliceJoin(ProgressOf(e0), Milestones, 0, 2, Reached(k));
    }

    /** Unpacking and swapping in: `installed` is the executable now below
        the install target. */
    method Stage(disk: Disk, unzip: Unzip, st: CurrentState, latest: LatestInfo, exeLocal: Option<Path>)
      returns (fail: Option<UpdateResult>, ghost k: nat, ghost installed: Path)
      requires disk.Valid() && Clean(latest)
      modifies this, disk
      ensures disk.Valid()
      ensures k == 5 || k == 6
      ensures requests == old(requests)
      ensures StagesOf(events) == StagesOf(old(events)) + Order[4..k]
      ensures ProgressOf(events) == ProgressOf(old(events)) + Milestones[0..Reached(k)]
      ensures DoneCount(events) == DoneCount(old(events))
      ensures Keeps(old(disk.fs), disk.fs, {paths.versionsDir, DownloadsDir(paths)})
      ensures fail.Some? ==> fail.value == Failure(fail.value.message, exeLocal) && FailedAt(k, fail.value.message)
      ensures fail.None? ==> k == 6 && ExeAt(disk.fs, InstallTarget(paths, latest), ExeName, installed)
    {
      ghost var s0, e0 := disk.fs, events;
      ghost var vd := {paths.versionsDir, DownloadsDir(paths)};
      assert Order[4..5] == [Unzipping] && Milestones[0..1] == [85];
      var dirname := VersionToDirname(latest.latestVersion).value;
      var zip := ZipPath(paths, st, latest);
      var staging, target := StagingDir(paths, st, dirname), TargetDir(paths, dirname);
      StagingIsSeparate(paths, st, dirname);
      Placed(paths, st, latest, dirname);
      ghost var exe;
      fail, exe := Unpack(disk, unzip, zip, staging, exeLocal);
      ghost var s1 := disk.fs;
      KeepsUnder(s0, s1, {staging}, vd, paths.versionsDir);
      installed := [];
      if fail.Some? {
        return fail, 5, installed;
      }
      fail, installed := Place(disk, staging, target, exeLocal, exe);
      KeepsTrans(s0, s1, disk.fs, vd, vd, vd);
      k := 6;
      SliceJoin(StagesOf(e0), Order, 4, 5, 6);
      SliceJoin(ProgressOf(e0), Milestones, 0, 1, 2);
    }

    /** The promotion of the unpacked staging directory to `target`, where
        the executable found in staging then lies. */
    method Place(disk: Disk, staging: Path, target: Path, exeLocal: Option<Path>, ghost exe: Path)
      returns (fail: Option<UpdateResult>, ghost installed: Path)
      requires disk.Valid() && Separate(staging, target) && ExeAt(disk.fs, staging, ExeName, exe)
      requires paths.versionsDir <= staging && paths.versionsDir <= target && paths.versionsDir <= Backup(target)
      modifies this, disk
      ensures disk.Valid()
      ensures requests == old(requests)
      ensures StagesOf(events) == StagesOf(old(events)) + Order[5..6]
      ensures ProgressOf(events) == ProgressOf(old(events)) + Milestones[1..2]
      ensures DoneCount(events) == DoneCount(old(events))
      ensures Keeps(old(disk.fs), disk.fs, {paths.versionsDir, DownloadsDir(paths)})
      ensures fail.Some? ==>
        fail.value == Failure(fail.value.message, exeLocal) && StartsWith(fail.value.message, "promote failed: ")
      ensures fail.None? ==> ExeAt(disk.fs, target, ExeName, installed)
    {
      ghost var s1 := disk.fs;
      fail := Promote(disk, staging, target, exeLocal);
      KeepsUnder(s1, disk.fs, {staging, target, Backup(target)}, {paths.versionsDir, DownloadsDir(paths)}, paths.versionsDir);
      installed := target + exe[|staging|..];
      if fail.None? {
        ExeMoves(s1, disk.fs, staging, target, exe);
      }
    }

    /** Recording the new version, cleaning up, and looking for the installed
        executable. */
    method Finish(disk: Disk, st: CurrentState, latest: LatestInfo, exeLocal: Option<Path>, ghost installed: Path)
      returns (r: Result<UpdateResult>, ghost k: nat)
      requires disk.Valid() && Clean(latest) && paths.currentJson != []
      requires ExeAt(disk.fs, InstallTarget(paths, latest), ExeName, installed)
      modifies this, disk
      ensures disk.Valid()
      ensures k == 7 || k == 8
      ensures requests == old(requests)
      ensures StagesOf(events) == StagesOf(old(events)) + Order[6..k]
      ensures ProgressOf(events) == ProgressOf(old(events)) + Milestones[2..Reached(k)]
      ensures DoneCount(events) == DoneCount(old(events))
      ensures Keeps(old(disk.fs), disk.fs, Roots(paths))
      ensures r.Err? <==> k == 7
      ensures r.Ok? && !r.value.ok ==> r.value == Failure(r.value.message, exeLocal) && FailedAt(k, r.value.message)
      ensures r.Ok? && r.value.ok ==>
        && k == 8 && r.value == UpdateResult(true, "ok(installed)", r.value.exePath, false, false, None, None)
        && r.value.exePath.Some? && ExeAt(disk.fs, InstallTarget(paths, latest), ExeName, r.value.exePath.value)
      ensures k == 8 && Separated(paths) ==> r.Ok? && r.value.ok
      ensures k == 8 && Separated(paths) && Canonical(st) ==>
        ReadCurrentState(disk.fs, paths.currentJson) == Ok(Updated(st, latest))
    {
      ghost var s0, e0 := disk.fs, events;
      var target := InstallTarget(paths, latest);
      var zip := ZipPath(paths, st, latest);
      Placed(paths, st, latest, VersionToDirname(latest.latestVersion).value);
      var e := Save(disk, Updated(st, latest));
      ghost var s1 := disk.fs;
      if e.Some? {
        KeepsMore(s0, s1, {paths.currentJson, TmpPath(paths.currentJson)}, Roots(paths));
        return Err(e.value), 7;
      }
      Cleanup(disk, zip);
      k := 8;
      SliceJoin(StagesOf(e0), Order, 6, 7, 8);
      SliceJoin(ProgressOf(e0), Milestones, 2, 3, 5);
      SavedAndCleaned(s0, s1, disk.fs, latest, installed);
      var found := FindExe(disk, target, ExeName);
      if found.None? {
        return Ok(Failure("installed but exe not found", exeLocal)), k;
      }
      return Ok(UpdateResult(true, "ok(installed)", found, false, false, None, None)), k;
    }

    /** The frame of saving and cleaning up, and what survives it: the
        installed executable and, in a separated layout, the new record. */
    lemma SavedAndCleaned(s0: Tree, s1: Tree, s2: Tree, latest: LatestInfo, installed: Path)
      requires Clean(latest) && paths.currentJson != []
      requires Keeps(s0, s1, {paths.currentJson, TmpPath(paths.currentJson)})
      requires Keeps(s1, s2, {DownloadsDir(paths), StagingRoot(paths)})
      requires IsFile(s1, paths.currentJson)
      requires ExeAt(s0, InstallTarget(paths, latest), ExeName, installed)
      ensures Keeps(s0, s2, Roots(paths))
      ensures Separated(paths) ==> ExeAt(s2, InstallTarget(paths, latest), ExeName, installed)
      ensures Separated(paths) ==> ReadCurrentState(s2, paths.currentJson) == ReadCurrentState(s1, paths.currentJson)
    {
      CleanupFrame(paths, s1, s2);
      KeepsTrans(s0, s1, s2, {paths.currentJson, TmpPath(paths.currentJson)}, {paths.versionsDir, DownloadsDir(paths)}, Roots(paths));
      if Separated(paths) {
        InstalledAway(paths, VersionToDirname(latest.latestVersion).value, installed);
        RecordAway(paths);
        ReadSameEntry(s1, s2, paths.currentJson);
      }
    }
  
    /** The progress reports of the download a run makes for `latest`: those
        of `download_file` on the asset, or none when there is no asset. */
    ghost function DownloadCalls(fs: Tree, locked: set<Path>, net: Network, st: CurrentState, latest: LatestInfo): seq<(int, int)> {
      if latest.assetUrl.None? then []
      else DownloadOutcome(fs, locked, net.get(latest.assetUrl.value), ZipPath(paths, st, latest)).2
    }

    /** The update itself, once the server announced a newer release and
        automatic updates are on: download, then `Deploy`. `k` is how many
        stages the run has announced when this returns; `calls` are the
        download's progress reports. */
    method Install(disk: Disk, net: Network, unzip: Unzip, st: CurrentState, latest: LatestInfo, exeLocal: Option<Path>)
      returns (r: Result<UpdateResult>, ghost k: nat, ghost calls: seq<(int, int)>)
      requires disk.Valid() && Clean(latest) && paths.currentJson != []
      modifies this, disk
      ensures disk.Valid()
      ensures k == 2 || 4 <= k <= 8
      ensures StagesOf(events) == StagesOf(old(events)) + Order[2..k]
      ensures ProgressOf(events) == ProgressOf(old(events)) + DownloadPercents(calls) + Milestones[0..Reached(k)]
      ensures DoneCount(events) == DoneCount(old(events))
      ensures latest.assetUrl.None? ==>
        && r == Ok(Failure("asset_url is empty", exeLocal)) && k == 2 && calls == []
        && requests == old(requests) && disk.fs == old(disk.fs)
      ensures latest.assetUrl.Some? ==>
        var url := latest.assetUrl.value;
        var (fs, d, cs) := DownloadOutcome(old(disk.fs), disk.locked, net.get(url), ZipPath(paths, st, latest));
        && calls == cs
        && requests == old(requests) + ProbeRequests(net, url) + (if d.Ok? then [Get(url)] else [])
        && (k >= 5 <==> d.Ok? && d.value.ok)
        && (k == 4 ==> disk.fs == fs && (d.Err? ==> r == Err(d.error)))
      ensures |requests| >= |old(requests)| && requests[..|old(requests)|] == old(requests)
      ensures Keeps(old(disk.fs), disk.fs, Roots(paths))
      ensures k <= 6 ==> Keeps(old(disk.fs), disk.fs, {paths.versionsDir, DownloadsDir(paths)})
      ensures r.Err? ==> k == 4 || k == 7
      ensures r.Ok? && !r.value.ok ==> r.value == Failure(r.value.message, exeLocal) && FailedAt(k, r.value.message)
      ensures r.Ok? && r.value.ok ==>
        && k == 8 && r.value == UpdateResult(true, "ok(installed)", r.value.exePath, false, false, None, None)
        && r.value.exePath.Some? && ExeAt(disk.fs, InstallTarget(paths, latest), ExeName, r.value.exePath.value)
      ensures k == 8 && Separated(paths) ==> r.Ok? && r.value.ok
      ensures k == 8 && Separated(paths) && Canonical(st) ==>
        ReadCurrentState(disk.fs, paths.currentJson) == Ok(Updated(st, latest))
    {
      ghost var s0, e0 := disk.fs, events;
      ghost var vd := {paths.versionsDir, DownloadsDir(paths)};
      assert Order[2..4] == [Probing, Downloading];
      if latest.assetUrl.None? {
        return Ok(Failure("asset_url is empty", exeLocal)), 2, [];
      }
      var url := latest.assetUrl.value;
      var zip := ZipPath(paths, st, latest);
      var d;
      d, calls := Acquire(disk, net, url, zip);
      DownloadFrame(paths, st, latest, s0, disk.locked, net.get(url));
      if d.Err? {
        KeepsMore(s0, disk.fs, vd, Roots(paths));
        return Err(d.error), 4, calls;
      }
      if !d.value.ok {
        KeepsMore(s0, disk.fs, vd, Roots(paths));
        return Ok(Failure("download failed: " + d.value.msg, exeLocal)), 4, calls;
      }
      ghost var s1 := disk.fs;
      r, k := Deploy(disk, unzip, st, latest, exeLocal);
      SliceJoin(StagesOf(e0), Order, 2, 4, k);
      KeepsTrans(s0, s1, disk.fs, vd, Roots(paths), Roots(paths));
      if k <= 6 {
        KeepsTrans(s0, s1, disk.fs, vd, vd, vd);
      }
    }
  
    /** The part of `_run_impl` before anything is written: read the record,
        query the server, compare. It computes `PlanOf`. */
    method Prepare(disk: Disk, net: Network) returns (plan: Result<Plan>, ghost k: nat)
      modifies this
      ensures plan == PlanOf(disk.fs, net, paths.currentJson)
      ensures k == (if ReadCurrentState(disk.fs, paths.currentJson).Err? then 1 else 2)
      ensures StagesOf(events) == StagesOf(old(events)) + Order[0..k]
      ensures ProgressOf(events) == ProgressOf(old(events)) + [0]
      ensures DoneCount(events) == DoneCount(old(events))
      ensures requests == old(requests) +
        (if k == 1 then []
         else var st := ReadCurrentState(disk.fs, paths.currentJson).value;
           [Get(LatestUrl(st.serverUrl, st.programId))])
    {
      ghost var e0, fs0 := events, disk.fs;
      assert Order[0..1] == [ReadingState] && Order[1..2] == [QueryingLatest];
      SliceJoin(StagesOf(e0), Order, 0, 1, 2);
      var read := ReadState(disk);
      assert disk.fs == fs0;
      if read.Err? {
        return Err(read.error), 1;
      }
      plan := Query(net, read.value);
      assert disk.fs == fs0;
      k := 2;
    }

    /** Reading the record, with its status and log lines. */
    method ReadState(disk: Disk) returns (read: Result<CurrentState>)
      modifies this
      ensures read == ReadCurrentState(disk.fs, paths.currentJson)
      ensures StagesOf(events) == StagesOf(old(events)) + [ReadingState]
      ensures ProgressOf(events) == ProgressOf(old(events)) + [0]
      ensures DoneCount(events) == DoneCount(old(events)) && requests == old(requests)
    {
      ReportProgress(0);
      SetStatus(ReadingState);
      read := ReadCurrentState(disk.fs, paths.currentJson);
      if read.Ok? {
        Log("[launcher] program_id=" + read.value.programId);
        Log("[launcher] local_version=" + read.value.version);
        Log("[launcher] server_url=" + read.value.serverUrl);
      }
    }

    /** Querying the server and comparing, with the status and log lines. */
    method Query(net: Network, st: CurrentState) returns (plan: Result<Plan>)
      modifies this
      ensures plan == PlanFor(net, st)
      ensures StagesOf(events) == StagesOf(old(events)) + [QueryingLatest]
      ensures ProgressOf(events) == ProgressOf(old(events)) && DoneCount(events) == DoneCount(old(events))
      ensures requests == old(requests) + [Get(LatestUrl(st.serverUrl, st.programId))]
    {
      SetStatus(QueryingLatest);
      requests := requests + [Get(LatestUrl(st.serverUrl, st.programId))];
      var answer := FetchLatest(net, st.serverUrl, st.programId);
      if answer.Err? {
        return Err(answer.error);
      }
      Log("[launcher] fetch_latest.ok=" + PyBool(answer.value.ok));
      Log("[launcher] fetch_latest.msg=" + answer.value.msg);
      if !answer.value.ok || answer.value.info.None? {
        return Ok(Unreachable(st, answer.value.msg));
      }
      var latest := answer.value.info.value;
      Log("[launcher] latest_version=" + latest.latestVersion);
      Log("[launcher] asset_url=" + PyOptText(latest.assetUrl));
      var cmp := CompareVersions(st.version, latest.latestVersion);
      if cmp.Err? {
        return Err(cmp.error);
      }
      if cmp.value >= 0 {
        return Ok(UpToDate(st, latest, cmp.value));
      }
      return Ok(Behind(st, latest));
    }

    /** No update is due: log why, and report the local executable. */
    method Settle(disk: Disk, st: CurrentState, latest: LatestInfo, cmp: int) returns (r: UpdateResult)
      requires Canonical(st)
      modifies this
      ensures requests == old(requests)
      ensures StagesOf(events) == StagesOf(old(events)) && ProgressOf(events) == ProgressOf(old(events))
      ensures DoneCount(events) == DoneCount(old(events))
      ensures Found(disk.fs, LocalRoot(paths, st), r.exePath)
      ensures r == UpdateResult(r.exePath.Some?, SettledMessage(cmp, r.exePath), r.exePath, false, false, None, None)
    {
      if cmp > 0 {
        Log("[launcher] server older than local (skip): local=" + st.version + " server=" + latest.latestVersion);
      } else {
        Log("[launcher] up-to-date: " + st.version);
      }
      var exe := ResolveLatestExe(disk, paths, st);
      r := UpdateResult(exe.value.Some?, SettledMessage(cmp, exe.value), exe.value, false, false, None, None);
    }

    /** `_run_impl()`. `k` is how many stages were announced and `calls` the
        download's progress reports. */
    method RunImpl(disk: Disk, net: Network, unzip: Unzip)
      returns (r: Result<UpdateResult>, ghost read: Result<CurrentState>, ghost planned: Result<Plan>,
               ghost k: nat, ghost calls: seq<(int, int)>)
      requires disk.Valid()
      modifies this, disk
      ensures disk.Valid()
      ensures read == ReadCurrentState(old(disk.fs), paths.currentJson)
      ensures planned == PlanOf(old(disk.fs), net, paths.currentJson)
      ensures 1 <= k <= 8
      ensures StagesOf(events) == StagesOf(old(events)) + Order[0..k]
      ensures ProgressOf(events) == ProgressOf(old(events)) + [0] + DownloadPercents(calls) + Milestones[0..Reached(k)]
      ensures DoneCount(events) == DoneCount(old(events))
      ensures Keeps(old(disk.fs), disk.fs, Roots(paths))
      ensures read.Err? ==> k == 1 && requests == old(requests)
      ensures read.Ok? ==>
        && k >= 2 && |requests| > |old(requests)|
        && requests[..|old(requests)| + 1] == old(requests) + [Get(LatestUrl(read.value.serverUrl, read.value.programId))]
      ensures !(autoUpdate && planned.Ok? && planned.value.Behind?) ==>
        && disk.fs == old(disk.fs) && calls == [] && k <= 2 && |requests| <= |old(requests)| + 1
      ensures autoUpdate && planned.Ok? && planned.value.Behind? ==>
        calls == DownloadCalls(old(disk.fs), disk.locked, net, planned.value.st, planned.value.latest)
      ensures planned.Err? ==> r == Err(planned.error)
      ensures planned.Ok? ==> Settled(old(disk.fs), disk.fs, planned.value, r, k)
      ensures Separated(paths) && k <= 6 ==>
        ReadCurrentState(disk.fs, paths.currentJson) == ReadCurrentState(old(disk.fs), paths.currentJson)
    {
      ghost var e0, q0 := events, requests;
      read := ReadCurrentState(disk.fs, paths.currentJson);
      var plan;
      plan, k := Prepare(disk, net);
      planned := plan;
      calls := [];
      if plan.Err? {
        NoDownload(ProgressOf(e0) + [0], k);
        assert requests[..|requests|] == requests;
        assert disk.fs == old(disk.fs);
        return Err(plan.error), read, planned, k, calls;
      }
      ghost var q1 := requests;
      ghost var k2;
      r, k2, calls := Decide(disk, net, unzip, plan.value);
      SliceJoin(StagesOf(e0), Order, 0, 2, k2);
      k := k2;
      assert |q1| == |q0| + 1;
    }

    /** What `_run_impl` promises for each plan: the failure message when the
        server was unreachable, the local executable when no update is due or
        automatic updates are off, and the install outcome otherwise. */
    ghost predicate Settled(before: Tree, after: Tree, plan: Plan, r: Result<UpdateResult>, k: nat)
      requires Canonical(plan.st) && (!plan.Unreachable? ==> Clean(plan.latest))
    {
      match plan
      case Unreachable(_, msg) => r == Ok(Failure("fetch_latest failed: " + msg, None))
      case UpToDate(st, _, cmp) =>
        && r.Ok? && Found(before, LocalRoot(paths, st), r.value.exePath)
        && r.value == UpdateResult(r.value.exePath.Some?, SettledMessage(cmp, r.value.exePath), r.value.exePath, false, false, None, None)
      case Behind(st, latest) =>
        && (!autoUpdate ==>
              && r.Ok? && Found(before, LocalRoot(paths, st), r.value.exePath)
              && r.value == UpdateResult(true, "update available", r.value.exePath, false, true,
                                         Some(latest.latestVersion), latest.assetUrl))
        && (autoUpdate ==>
              && (r.Err? ==> k == 4 || k == 7)
              && (r.Ok? && !r.value.ok ==>
                    && FailedAt(k, r.value.message) && r.value == Failure(r.value.message, r.value.exePath)
                    && Found(before, LocalRoot(paths, st), r.value.exePath))
              && (r.Ok? && r.value.ok ==>
                    && k == 8 && r.value == UpdateResult(true, "ok(installed)", r.value.exePath, false, false, None, None)
                    && r.value.exePath.Some? && ExeAt(after, InstallTarget(paths, latest), ExeName, r.value.exePath.value))
              && (k == 8 && Separated(paths) ==>
                    && r.Ok? && r.value.ok
                    && ReadCurrentState(after, paths.currentJson) == Ok(Updated(st, latest))))
    }

    /** The part of `_run_impl` after the comparison, for a plan read from the
        current tree. */
    method Decide(disk: Disk, net: Network, unzip: Unzip, plan: Plan)
      returns (r: Result<UpdateResult>, ghost k: nat, ghost calls: seq<(int, int)>)
      requires disk.Valid() && IsFile(disk.fs, paths.currentJson)
      requires Canonical(plan.st) && (!plan.Unreachable? ==> Clean(plan.latest))
      modifies this, disk
      ensures disk.Valid()
      ensures 2 <= k <= 8
      ensures StagesOf(events) == StagesOf(old(events)) + Order[2..k]
      ensures ProgressOf(events) == ProgressOf(old(events)) + DownloadPercents(calls) + Milestones[0..Reached(k)]
      ensures DoneCount(events) == DoneCount(old(events))
      ensures |requests| >= |old(requests)| && requests[..|old(requests)|] == old(requests)
      ensures Keeps(old(disk.fs), disk.fs, Roots(paths))
      ensures !(autoUpdate && plan.Behind?) ==>
        disk.fs == old(disk.fs) && calls == [] && k == 2 && requests == old(requests)
      ensures autoUpdate && plan.Behind? ==> calls == DownloadCalls(old(disk.fs), disk.locked, net, plan.st, plan.latest)
      ensures Settled(old(disk.fs), disk.fs, plan, r, k)
      ensures Separated(paths) && k <= 6 ==>
        ReadCurrentState(disk.fs, paths.currentJson) == ReadCurrentState(old(disk.fs), paths.currentJson)
    {
      ghost var s0 := disk.fs;
      k, calls := 2, [];
      match plan
      case Unreachable(_, msg) =>
        r := Ok(Failure("fetch_latest failed: " + msg, None));
      case UpToDate(st, latest, cmp) =>
        var u := Settle(disk, st, latest, cmp);
        r := Ok(u);
      case Behind(st, latest) =>
        r, k, calls := Upgrade(disk, net, unzip, st, latest);
    }

    /** The branch of `_run_impl` where the server has a newer version. */
    method Upgrade(disk: Disk, net: Network, unzip: Unzip, st: CurrentState, latest: LatestInfo)
      returns (r: Result<UpdateResult>, ghost k: nat, ghost calls: seq<(int, int)>)
      requires disk.Valid() && IsFile(disk.fs, paths.currentJson)
      requires Canonical(st) && Clean(latest)
      modifies this, disk
      ensures disk.Valid()
      ensures 2 <= k <= 8
      ensures StagesOf(events) == StagesOf(old(events)) + Order[2..k]
      ensures ProgressOf(events) == ProgressOf(old(events)) + DownloadPercents(calls) + Milestones[0..Reached(k)]
      ensures DoneCount(events) == DoneCount(old(events))
      ensures |requests| >= |old(requests)| && requests[..|old(requests)|] == old(requests)
      ensures Keeps(old(disk.fs), disk.fs, Roots(paths))
      ensures !autoUpdate ==>
        disk.fs == old(disk.fs) && calls == [] && k == 2 && requests == old(requests)
      ensures autoUpdate ==> calls == DownloadCalls(old(disk.fs), disk.locked, net, st, latest)
      ensures Settled(old(disk.fs), disk.fs, Behind(st, latest), r, k)
      ensures Separated(paths) && k <= 6 ==>
        ReadCurrentState(disk.fs, paths.currentJson) == ReadCurrentState(old(disk.fs), paths.currentJson)
    {
      ghost var s0 := disk.fs;
      k, calls := 2, [];
      var exe := ResolveLatestExe(disk, paths, st);
      var exeLocal := exe.value;
      if !autoUpdate {
        r := Ok(UpdateResult(true, "update available", exeLocal, false, true, Some(latest.latestVersion), latest.assetUrl));
      } else {
        r, k, calls := Install(disk, net, unzip, st, latest, exeLocal);
        RunFrame(s0, disk.fs, k);
      }
    }

    /** A run that stopped before saving left the record as it was. */
    lemma RunFrame(s0: Tree, s1: Tree, k: nat)
      requires IsFile(s0, paths.currentJson)
      requires k <= 6 ==> Keeps(s0, s1, {paths.versionsDir, DownloadsDir(paths)})
      ensures Separated(paths) && k <= 6 ==>
        ReadCurrentState(s1, paths.currentJson) == ReadCurrentState(s0, paths.currentJson)
    {
      if Separated(paths) && k <= 6 {
        RecordAway(paths);
        ReadSameEntry(s0, s1, paths.currentJson);
      }
    }

    /** `run()`: the result of `_run_impl`, or the escaped exception as a
        failed result, is sent on `sig_done` exactly once, as the last event.
        `planned` is the plan `_run_impl` worked from. */
    method Run(disk: Disk, net: Network, unzip: Unzip)
      returns (ghost impl: Result<UpdateResult>, ghost planned: Result<Plan>, ghost k: nat, ghost calls: seq<(int, int)>)
      requires disk.Valid()
      modifies this, disk
      ensures disk.Valid()
      ensures 1 <= k <= 8
      ensures |events| > 0 && events[|events| - 1] == Done(Reported(impl))
      ensures DoneCount(events) == DoneCount(old(events)) + 1
      ensures StagesOf(events) == StagesOf(old(events)) + Order[0..k]
      ensures ProgressOf(events) == ProgressOf(old(events)) + [0] + DownloadPercents(calls) + Milestones[0..Reached(k)]
      ensures planned == PlanOf(old(disk.fs), net, paths.currentJson)
      ensures planned.Err? ==> impl == Err(planned.error)
      ensures planned.Ok? ==> Settled(old(disk.fs), disk.fs, planned.value, impl, k)
      ensures !(autoUpdate && planned.Ok? && planned.value.Behind?) ==> disk.fs == old(disk.fs) && calls == []
      ensures autoUpdate && planned.Ok? && planned.value.Behind? ==>
        calls == DownloadCalls(old(disk.fs), disk.locked, net, planned.value.st, planned.value.latest)
      ensures Keeps(old(disk.fs), disk.fs, Roots(paths))
    {
      var r;
      r, planned, k, calls := Attempt(disk, net, unzip);
      impl := r;
      Announce(r);
    }

    /** `_run_impl` as `run` sees it: the stages and progress it reports, the
        plan and what it settled on. */
    method Attempt(disk: Disk, net: Network, unzip: Unzip)
      returns (r: Result<UpdateResult>, ghost planned: Result<Plan>, ghost k: nat, ghost calls: seq<(int, int)>)
      requires disk.Valid()
      modifies this, disk
      ensures disk.Valid()
      ensures 1 <= k <= 8
      ensures DoneCount(events) == DoneCount(old(events))
      ensures StagesOf(events) == StagesOf(old(events)) + Order[0..k]
      ensures ProgressOf(events) == ProgressOf(old(events)) + [0] + DownloadPercents(calls) + Milestones[0..Reached(k)]
      ensures planned == PlanOf(old(disk.fs), net, paths.currentJson)
      ensures planned.Err? ==> r == Err(planned.error)
      ensures planned.Ok? ==> Settled(old(disk.fs), disk.fs, planned.value, r, k)
      ensures !(autoUpdate && planned.Ok? && planned.value.Behind?) ==> disk.fs == old(disk.fs) && calls == []
      ensures autoUpdate && planned.Ok? && planned.value.Behind? ==>
        calls == DownloadCalls(old(disk.fs), disk.locked, net, planned.value.st, planned.value.latest)
      ensures Keeps(old(disk.fs), disk.fs, Roots(paths))
    {
      ghost var read;
      r, read, planned, k, calls := RunImpl(disk, net, unzip);
    }

    /** The emit after the `try`/`except` of `run`: send the result on `sig_done`. */
    method Announce(r: Result<UpdateResult>)
      modifies this
      ensures events == old(events) + [Done(Reported(r))] && requests == old(requests)
      ensures |events| == |old(events)| + 1 && events[|events| - 1] == Done(Reported(r))
      ensures StagesOf(events) == StagesOf(old(events)) && ProgressOf(events) == ProgressOf(old(events))
      ensures DoneCount(events) == DoneCount(old(events)) + 1
    {
      var result := if r.Ok? then r.value else Failure("unexpected error: " + r.error.msg, None);
      Appended(events, Done(result));
      events := events + [Done(result)];
    }
  }
}
