# crawl-program launcher and app core, modelled in Dafny

This project models the non-UI core of crawl-program, a Windows desktop
crawler. It has two parts.

**The launcher** (`launcher/`) keeps the installed program up to date:

- `versioning.py` parses `X.Y.Z` version strings and compares them.
- `state.py` reads and atomically rewrites `current.json`, which records the
  installed program id, version and server URL.
- `api.py` validates the answers of the server's "latest version" and
  "notice" endpoints.
- `downloader.py` streams a release archive into a `.part` file and renames
  it into place.
- `installer.py` unpacks an archive into a staging directory, then swaps it
  in for the live version directory, keeping a `__bak` copy while it does so.
- `update_worker.py` runs the whole check-download-install sequence and
  reports status, log lines and progress.
- `notice_store.py` remembers which notices the user hid, and until when.
- `app_config.py` reads the help-site and Q&A links.

**The application** (`main.py`, `src/`) reads its configuration and builds
its workers:

- `main.py` reads `runtime/app.json` and decides single- or multi-instance
  start-up.
- `app_config_loader.py` loads the site list and each site's configuration.
- `site.py` is the site record.
- `worker_factory.py` turns a `module:Class` text into a worker class, with a
  cache.
- `api_base_worker.py` has the base worker's `init`/`main`/`destroy`
  sequence and its column and site filters.
- `global_state.py` is the process-wide key/value store.
- The string, number and file-name helpers the core uses.

Modelling choices:

- **Files.** The file system is a `FileSystem.Disk` object over a map from
  paths to nodes; a node is a directory or a file.
  - A path is a sequence of names. The first name of an absolute path is its
    drive (`C:`). The tree spells each drive one way: the runtime directory's
    drive as the runtime directory's path spells it, any other drive in upper
    case. A drive written in a config path is matched without case.
  - A file holds either a parsed JSON document or raw bytes that
    `json.loads` rejects. JSON text itself is not modelled. Raw bytes are
    decoded as UTF-8 the way Python's decoder does (`TextDecode`), so a file
    that is not UTF-8 raises `UnicodeDecodeError` with Python's message.
  - The OS's refusals are decided by a fixed set of paths that other
    processes hold open, with Windows rename semantics: a rename fails when
    the target exists or when anything below the source is open.
  - `Disk` keeps a ghost history of every state it passed through. That
    history is how "the target holds either the old or the new record at
    every moment" is stated.
  - Each operation states its frame as `Keeps`: nothing away from the named
    roots changes, and the only new entries away from them are directories.
- **Network.** A `Network` value gives the reply of `requests.get` and
  `requests.head` for each URL; a reply is a response or a raised exception.
  A response carries its status, headers, text, decoded JSON and the chunks
  of its streamed body.
- **Parameters instead of outside state.**
  - ZIP decoding is a function from archive bytes to a tree.
  - The clock is a `now` parameter.
  - The modules `importlib` can load are a map.
  - The base directory is a path.
- **Python values.** JSON values keep Python's truthiness and `str()`.
  Exceptions are `Err` values that carry the exception type and its message.
- **Workers.** The update worker and the base worker are classes. Each one
  appends what it emits (status, log lines, progress, the final result) to
  an event sequence, where the source emits Qt signals.

## Model

| member | source | states |
|---|---|---|
| Versioning.SemVer.ToTuple | launcher/core/versioning.py:14-15 | the tuple is the three parts in the order major, minor, patch |
| Versioning.ParseSemver | launcher/core/versioning.py:18-44 | a parsed version has no negative part; every failure is a `ValueError`; "version is empty" is raised exactly when the stripped input is empty |
| Versioning.BlankIsEmpty | launcher/core/versioning.py:23-25 | blank input (empty or whitespace only) is exactly what raises "version is empty" |
| Versioning.ParseSemverOfNonBlank | launcher/core/versioning.py:23-30 | for non-blank input only the stripped text, with one leading `v`/`V` and the blank after it removed, decides the parts |
| Versioning.PartCountChecked | launcher/core/versioning.py:30-32 | a text that does not split into three dot-separated parts raises "invalid semver (expected x.y.z)" quoting the original input |
| Versioning.ThreeIntParts | launcher/core/versioning.py:30-44 | three parts that `int()` accepts (`Common.ParseInt`: sign, digit groups, and only `int()`'s own whitespace around them), none negative, give exactly that version |
| Versioning.NonIntPart | launcher/core/versioning.py:34-39 | a part that `int()` rejects, one padded with U+001C-U+001F included, raises "invalid semver (not int)" quoting the original input |
| Versioning.SeparatorPartRejected | launcher/core/versioning.py:34-39 | "1\x1c.0.0" raises "invalid semver (not int)": the separator survives the outer `strip()` and `int()` refuses it |
| Versioning.NegativePart | launcher/core/versioning.py:41-42 | a negative part raises "invalid semver (negative)" quoting the original input |
| Versioning.MinusZeroIsZero | launcher/core/versioning.py:35-42 | `int("-0")`, `int("-00")` and so on are 0, so such a part is accepted and is not negative |
| Versioning.ParseFormat | launcher/core/versioning.py:18-44 | the canonical text `X.Y.Z` of a version parses back to the same version |
| Versioning.ParsePrefixedFormat | launcher/core/versioning.py:27-28 | `v` or `V` followed by the canonical text parses to the same version |
| Versioning.PrefixIgnored | launcher/core/versioning.py:27-28 | one leading `v` or `V` does not change whether a version parses or what it parses to |
| Versioning.CompareVersions | launcher/core/versioning.py:47-60 | succeeds exactly when both sides parse (by ParseSemver, whose parts are read with `int()`'s own whitespace rule), and otherwise raises the error of the first side that fails; the result is -1, 0 or 1, and it is -1 exactly when local precedes server, 1 exactly when server precedes local and 0 exactly when they are equal |
| Versioning.TupleLessIsPrecedence | launcher/core/versioning.py:54-59 | tuple order on `to_tuple()` is exactly major-then-minor-then-patch precedence |
| Versioning.PrecedesIsStrictTotalOrder | launcher/core/versioning.py:56-60 | precedence is irreflexive, asymmetric, transitive and total |
| Versioning.CompareAntisymmetric | launcher/core/versioning.py:47-60 | comparing the other way round negates the result |
| Versioning.CompareReflexive | launcher/core/versioning.py:47-60 | every valid version compares equal to itself |
| Versioning.NumericNotTextual | launcher/core/versioning.py:54-57 | the parts compare as numbers: 1.9.0 is older than 1.10.0 |
| State.VersionToDirname | launcher/core/state.py:15-22 | raises "version is empty" exactly for blank input; otherwise the name starts with `v`, contains no `.`, and is the trimmed text plus one character unless that text already starts with `v` |
| State.DirnameOfBlank | launcher/core/state.py:16-18 | the conversion fails exactly when the version is empty or whitespace only |
| State.DirnameRecoversVersion | launcher/core/state.py:16-22 | turning `_` back into `.` in the name, after dropping the added `v`, gives back the trimmed version when that version contains no `_` |
| State.DirnameOfTrimmed | launcher/core/state.py:19-21 | a trimmed version not starting with `v` becomes `v` followed by the version with every `.` replaced by `_` |
| State.DirnameOfLowerPrefixed | launcher/core/state.py:20-21 | a version already starting with a lower-case `v` gets no second `v` |
| State.DirnameOfUpper | launcher/core/state.py:20-21 | an upper-case `V` counts as an ordinary character, so a `v` is still put in front of it |
| State.DirnameOfUpperPrefixed | launcher/core/state.py:20-21 | `V1.0.0` and `1.0.0` get different directory names |
| State.SameVersionDifferentDirs | launcher/core/state.py:15-22 | two texts that parse to the same version (`V` + X.Y.Z and X.Y.Z) map to different directories |
| State.DirnameInjective | launcher/core/state.py:15-22 | distinct versions written in canonical `X.Y.Z` form map to distinct directories |
| State.FormatHasNoUnderscore | launcher/core/state.py:19 | canonical version text contains no `_`, so the `.`-to-`_` replacement is reversible for it |
| State.StateOf | launcher/core/state.py:31-46 | checks `program_id`, `version` and `server_url` in that order: the first missing, non-string or blank field raises its own `ValueError`; a document that is not an object raises `AttributeError`; on success the three fields are their stripped values and none is blank |
| State.ReadCurrentState | launcher/core/state.py:25-46 | a missing file raises `FileNotFoundError` naming the path; bytes that are not UTF-8 raise `UnicodeDecodeError` with the decoder's message, other bytes that are not a document raise `JSONDecodeError`, refusing a leading byte-order mark by name; a JSON document is judged by `StateOf` |
| State.RecordFields | launcher/core/state.py:52-56 | the written object holds `version`, `program_id` and `server_url` with the state's values |
| State.StateOfRecord | launcher/core/state.py:42-56 | reading the written object back gives the same state when its fields are trimmed and non-blank |
| State.ReadAfterWrite | launcher/core/state.py:25-62 | after a file holds the written record, `read_current_state` returns the state that was written |
| State.TmpPath | launcher/core/state.py:59 | the temporary file is a sibling of the target with a name of its own |
| State.StageRecord | launcher/core/state.py:58-61 | creates the parent directories and writes the temporary file; in every state along the way the target holds its old entry; only the target, the temporary file and new parent directories change |
| State.WriteReplacing | launcher/core/state.py:58-62 | after success the target holds the new content and the temporary file is gone; in every intermediate state the target holds either its old entry or the new content |
| State.WriteCurrentState | launcher/core/state.py:48-62 | the write is atomic, so the target is old or new in every intermediate state; after success the target holds the record and reading it back gives the state; nothing outside the target and its temporary sibling changes |
| State.AlwaysOldOrNewExtend | launcher/core/state.py:58-62 | adding a state in which the target is old or new keeps the atomicity record valid |
| Installer.ClearedContents | launcher/core/installer.py:15-16 | after `rmtree(staging, ignore_errors=True)` nothing is left at or below the staging directory except what open files pin, and everything elsewhere is untouched |
| Installer.RecreatedStaging | launcher/core/installer.py:17 | re-creating the emptied staging directory puts exactly an empty directory there and keeps everything else |
| Installer.UnpackedContents | launcher/core/installer.py:15-20 | once staging was cleared and re-created, it holds exactly the archive's entries below an empty root |
| Installer.FillStaging | launcher/core/installer.py:17-24 | creates staging and extracts the archive into it; any failure returns "unzip failed: ..."; success leaves exactly the extracted tree; nothing outside staging changes |
| Installer.ClearStaging | launcher/core/installer.py:15-16 | the disk becomes the cleared tree and nothing outside staging changes |
| Installer.UnzipToStaging | launcher/core/installer.py:10-24 | a missing archive returns "zip not found: <path>" and changes nothing; other failures return "unzip failed: ..."; success returns "ok", and staging then holds exactly the archive's entries |
| Installer.UnzipOutcome | launcher/core/installer.py:14-22 | the tree after a successful unzip is the cleared, re-created and extracted staging directory, whose subtree is the archive |
| Installer.Backup | launcher/core/installer.py:38 | the backup is a sibling of the target with its own name, neither above nor below the target |
| Installer.MovedAside | launcher/core/installer.py:45-46 | renaming the target to the backup leaves no target, puts the old target content under the backup and keeps staging as it was |
| Installer.StagingInstalled | launcher/core/installer.py:49 | renaming staging onto the absent target installs the staging content there and leaves nothing at or below staging |
| Installer.BackupRemoved | launcher/core/installer.py:52-53 | removing the backup leaves the target and only what open files pin below the backup |
| Installer.MoveTargetAside | launcher/core/installer.py:40-46 | a stale backup is deleted and an existing target is moved to the backup; on success no target remains and the backup holds the old target content; on failure the target keeps its content; every intermediate state holds the old target, the new content or the old content aside |
| Installer.InstallStaging | launcher/core/installer.py:48-55 | on failure nothing changes; on success the target holds the staging content in every later state, staging is gone and only pinned entries remain below the backup |
| Installer.Swap | launcher/core/installer.py:38-55 | the two halves together: success installs the staging content; failure keeps the old target content at the target or at the backup; every intermediate state is safe |
| Installer.PromoteStaging | launcher/core/installer.py:27-58 | a missing staging directory returns "staging not found: <path>" and changes nothing; any later failure returns "promote failed: ..."; success returns "ok" with the target holding the staging content; the old content is never lost, and nothing outside staging, target and backup changes |
| Installer.InstalledIsSwapSafe | launcher/core/installer.py:48-53 | states in which the target holds the new content are safe states of the swap |
| Installer.CleanPath | launcher/core/installer.py:66-72 | a file is unlinked if possible, a directory is removed with `rmtree(ignore_errors=True)`, and anything else is left alone |
| Installer.CleanupPaths | launcher/core/installer.py:61-72 | never fails; the result is each target cleaned in turn, and nothing away from the targets changes |
| Installer.CleanedShrinks | launcher/core/installer.py:61-72 | cleanup only removes entries; it never creates or changes one |
| Installer.CleanedRemoves | launcher/core/installer.py:65-70 | every target holding no file open elsewhere is gone afterwards |
| Installer.CleanedKeepsOthers | launcher/core/installer.py:61-72 | entries below none of the targets are untouched |
| Installer.CleanedKeeps | launcher/core/installer.py:61-72 | cleanup changes nothing away from its targets and adds nothing |
| Downloader.ProbeUrl | launcher/core/downloader.py:10-27 | succeeds exactly when the `HEAD` or the fallback `GET` is answered with 200; a 200 `HEAD` gives "ok(head)" with its headers; otherwise the `GET` decides: "ok(get)" with its headers, "bad status(get): <code>", or "request failed: <reason>"; headers come back exactly on success |
| Downloader.ContentLength | launcher/core/downloader.py:50-54 | the total is the `Content-Length` header (its name matched case-insensitively) read as `int()` after `strip()`; it is 0 when the header is missing, blank or not a number |
| Downloader.ContentLengthOfSeparator | launcher/core/downloader.py:52 | a header "5\x1c" gives 5, because `strip()` drops the separator before `int()` sees it |
| Downloader.ReceivedSkipsEmpty | launcher/core/downloader.py:58-62 | skipping empty chunks changes neither the bytes written nor their count, so `bytes_written` is the file's length |
| Downloader.ProgressCallsRise | launcher/core/downloader.py:58-68 | one callback per non-empty chunk, each with the same total; the written counts rise strictly, stay within the bytes received and end at the full length |
| Downloader.PartPath | launcher/core/downloader.py:42 | the temporary file is a sibling of `dst` whose name is `dst`'s name plus ".part" |
| Downloader.PartPathIsWithSuffix | launcher/core/downloader.py:42 | that name is what `dst.with_suffix(dst.suffix + ".part")` gives |
| Downloader.CommitRename | launcher/core/downloader.py:70-78 | the commit succeeds exactly when the `.part` file is not held open and any old `dst` could be unlinked; it then moves the `.part` content to `dst` and returns the bytes written |
| Downloader.OutcomeOkIff | launcher/core/downloader.py:45-87 | once the parent exists, the download succeeds exactly when the reply is a 200 whose stream ran to its end and the `.part` file could be written and committed |
| Downloader.WrittenCommitIff | launcher/core/downloader.py:57-78 | once the `.part` file is written, the commit succeeds exactly when it could be opened and renamed onto `dst` |
| Downloader.BadStatusChangesNothing | launcher/core/downloader.py:47-48 | a status other than 200 returns "bad status: <code>" with 0 bytes, makes no progress call and changes nothing on disk |
| Downloader.DeliveredOutcome | launcher/core/downloader.py:56-78 | a fully delivered body that could be written ends in the commit step, with the progress calls of its chunks |
| Downloader.WrittenCommit | launcher/core/downloader.py:70-78 | a commit that succeeds leaves the written content at `dst` and no `.part` file, and returns "ok" with the byte count |
| Downloader.SuccessInstallsBody | launcher/core/downloader.py:45-78 | a successful download means the reply was delivered; `dst` then holds exactly the received bytes, the `.part` file is gone and the count is the body length |
| Downloader.FailureCleansUp | launcher/core/downloader.py:80-86 | the `except` branch removes the `.part` file unless it is held open |
| Downloader.FailureCleansPart | launcher/core/downloader.py:80-87 | every failure after the request returns "download failed: ..." with 0 bytes, leaves no `.part` file unless it is held open, and leaves `dst` alone unless the old `dst` was already unlinked |
| Downloader.CommitFailureCleansUp | launcher/core/downloader.py:71-86 | a failed rename, after the old `dst` may have been unlinked, still leaves the failure state described above |
| Downloader.RemovePart | launcher/core/downloader.py:82-86 | the disk step of the clean-up: the `.part` file is unlinked when it exists and is not held open |
| Downloader.RemoveOld | launcher/core/downloader.py:71-75 | the disk step that unlinks an old `dst`, failures ignored |
| Downloader.WriteChunks | launcher/core/downloader.py:56-68 | the loop writes the bytes of all chunks to the `.part` file, returns their count and makes the progress calls of the non-empty chunks |
| Downloader.Commit | launcher/core/downloader.py:70-86 | the commit and its clean-up on the disk have the outcome the commit step describes |
| Downloader.Fetch | launcher/core/downloader.py:45-87 | the download after the parent directory exists, on the disk, has exactly the outcome of the reply |
| Downloader.Store | launcher/core/downloader.py:50-87 | the steps after a 200 reply have exactly the outcome described for them |
| Downloader.Stream | launcher/core/downloader.py:56-87 | the streaming and commit steps have exactly the outcome described for them |
| Downloader.MkdirsMakesParent | launcher/core/downloader.py:41 | after `mkdir(parents=True)` succeeds, the parent of `dst` is a directory |
| Downloader.DownloadSucceedsIff | launcher/core/downloader.py:30-87 | `download_file` returns success exactly when the parent directory could be created, the reply was delivered with status 200, and the `.part` file could be written and committed |
| Downloader.CommitKeeps | launcher/core/downloader.py:70-86 | the commit changes nothing away from `dst` and its `.part` file |
| Downloader.OutcomeKeeps | launcher/core/downloader.py:45-87 | the download changes nothing away from `dst` and its `.part` file, apart from new parent directories |
| Downloader.DownloadKeeps | launcher/core/downloader.py:30-87 | the same frame holds from the very start, including the creation of the parent directory |
| Downloader.DownloadFile | launcher/core/downloader.py:30-87 | the disk, the returned triple (or the exception of the directory creation) and the progress calls are exactly the outcome of the `GET` reply |
| Api.Base | launcher/core/api.py:32 | `rstrip("/")`: the base is a prefix of the server text, does not end in `/`, and only `/` characters were cut |
| Api.BaseIgnoresTrailingSlash | launcher/core/api.py:32 | one more trailing `/` on the server address gives the same base |
| Api.LatestUrlParts | launcher/core/api.py:32-33 | the release URL is the base, then `/launcher/api/v1/programs/`, the program id and `/latest`; a trailing `/` on the server does not change it |
| Api.IntOrNone | launcher/core/api.py:68 | the size is kept exactly when it is a Python `int` (booleans included), with its value |
| Api.LatestOf | launcher/core/api.py:50-70 | on a decoded body: a body that is not a dict raises `AttributeError`; the answer is ok exactly when both `program_id` and `latest_version` are non-blank strings and `asset` is a dict or falsy; otherwise the message names the first bad field; info is present exactly when ok |
| Api.LatestFromReply | launcher/core/api.py:28-70 | a raised request gives "request failed: ..."; any other status than 200 gives "bad status: <code> / <first 200 characters>"; a body that is not JSON gives "json parse failed: ..."; a 200 reply with a JSON body is judged by the body checks; an ok answer needs a 200 reply whose body is a dict |
| Api.LatestIsClean | launcher/core/api.py:63-69 | an accepted release has trimmed, non-blank id and version, and its url and sha256 are trimmed and non-blank when present |
| Api.MissingAssetIsFine | launcher/core/api.py:58-69 | without an `asset` key the release is accepted with no url, no sha256 and no size |
| Api.LatestDocTexts | launcher/core/api.py:50-68 | every field validation reads from a server body is the value that was sent |
| Api.LatestRoundTrip | launcher/core/api.py:50-70 | a body built from a clean release is accepted and gives back exactly that release |
| Api.Level | launcher/core/api.py:102-118 | a missing, blank or non-string level becomes "INFO"; any other level is its trimmed text upper-cased, so never empty and with no lower-case letter |
| Api.NoticeOf | launcher/core/api.py:101-123 | the notice is accepted exactly when `id` is a non-blank string; then id, level, `force is True`, title and content are read as the source does; otherwise the answer is `invalid response: "id"` |
| Api.NoticeBody | launcher/core/api.py:97-99 | a body that is not a dict raises on `obj.get`, and only such a body raises |
| Api.NoticeFromReply | launcher/core/api.py:73-123 | a raised request fails with its reason; status 204 is "no notice" and ok with no info; any status other than 200 and 204 gives "bad status: <code> / <first 200 characters>"; a body that is not JSON gives "json parse failed: ..."; a 200 reply with a JSON body is what `NoticeBody` makes of it; a notice comes back exactly when the answer is ok and the status was not 204 |
| Api.WrappedNoticeIsBare | launcher/core/api.py:97 | a notice wrapped as `{"notice": {...}}` gives the same answer as the bare notice |
| Api.NoticeOfDoc | launcher/core/api.py:101-123 | a notice object built from a clean notice is accepted and gives back exactly that notice |
| Api.NoNoticeKey | launcher/core/api.py:97 | a bare notice object has no `notice` key, so the body itself is the notice |
| Api.NoticeRoundTrip | launcher/core/api.py:97-123 | a clean notice survives the server round trip both wrapped and bare |
| Api.FalsyNoticeUsesBody | launcher/core/api.py:97 | when `notice` is missing or falsy the body itself is checked as the notice |
| Updater.LayoutIsSeparated | launcher/core/paths.py:30-40 | in the layout `get_paths` builds, the version directory, the download directory, `current.json` and its temporary file are four places none of which lies below another |
| Updater.StagingIsSeparate | launcher/workers/update_worker.py:154-175 | the staging directory `versions/_staging/<id>/<dir>` and the target `versions/<dir>` are separate, since a version directory name starts with `v`, for a program id that is one plain name |
| Updater.Placed | launcher/workers/update_worker.py:134-175 | staging, target and its backup lie below `versions`, the archive below `downloads_tmp`, for a program id that is one plain name |
| Updater.ExeMoves | launcher/workers/update_worker.py:166-203 | an executable found in staging is found again at the same relative place below the target once the target holds the staged tree |
| Updater.InstalledAway | launcher/workers/update_worker.py:175-199 | nothing below an installed version directory is the record, its temporary file, the download directory or the staging root |
| Updater.DownloadFrame | launcher/workers/update_worker.py:134-142 | the download touches nothing outside `versions` and `downloads_tmp` |
| Updater.CleanupFrame | launcher/workers/update_worker.py:197-199 | the three cleanups touch nothing outside `versions` and `downloads_tmp` |
| Updater.RecordAway | launcher/workers/update_worker.py:142-199 | `current.json` lies away from every directory the install and cleanup rewrite |
| Updater.ReadSameEntry | launcher/core/state.py:25-46 | reading the record depends on its own file entry only |
| Updater.Appended | launcher/workers/update_worker.py:55-69 | each emitted event extends exactly one signal's history: status, progress or done |
| Updater.Clamp | launcher/workers/update_worker.py:61-62 | `_progress` sends a value in 0..100: the value itself inside that range, 0 below it, 100 above it |
| Updater.DownloadPercents | launcher/workers/update_worker.py:137-140 | at most one percentage per download report, each within 0..100 |
| Updater.Percent | launcher/workers/update_worker.py:139 | `written * 80 / total` for `0 <= written <= total` lies in 0..80 and grows with `written` |
| Updater.PercentsRise | launcher/workers/update_worker.py:137-140 | reports with a fixed total and rising byte counts give one percentage each when the total is positive and none when it is 0, never falling and within 0..80 |
| Updater.PercentAt | launcher/workers/update_worker.py:137-140 | with a positive total the i-th percentage is the clamped `written * 80 / total` of the i-th report |
| Updater.DownloadProgressRises | launcher/workers/update_worker.py:137-142 | when the body is no longer than the announced Content-Length, the progress bar climbs monotonically within 0..80 during the download |
| Updater.ProbeRequests | launcher/core/downloader.py:10-27 | probing always sends a `HEAD` first, and sends only that exactly when it was answered with 200 |
| Updater.AnswerIsClean | launcher/workers/update_worker.py:81-89 | an accepted `fetch_latest` answer always carries a clean release |
| Updater.PlanFor | launcher/workers/update_worker.py:80-111 | an exception from `fetch_latest` escapes; a refused answer stops with its message; otherwise the release is clean and the plan is up-to-date when the local version is not older, or behind when it strictly precedes the server's by semantic-version precedence |
| Updater.PlanOf | launcher/workers/update_worker.py:72-111 | the record is read first and its error escapes before any request; a plan always belongs to the record read, in canonical form |
| Updater.StateOfIsCanonical | launcher/core/state.py:25-46 | a record that reads successfully is canonical |
| Updater.FindExe | launcher/workers/update_worker.py:37-41 | the answer is a file with the given name below the root, and `None` exactly when no such file exists |
| Updater.ResolveLatestExe | launcher/workers/update_worker.py:210-213 | a blank version raises as `version_to_dirname` does, and only then; otherwise the answer is the executable search below `versions/<dirname>` |
| Updater.Reported | launcher/workers/update_worker.py:64-69 | a result of `_run_impl` is sent unchanged; an escaped exception becomes a failed result with no executable whose message starts with "unexpected error: " |
| Updater.UpdateWorker.constructor | launcher/workers/update_worker.py:50-53 | a new worker keeps its paths and `auto_update` and has emitted nothing |
| Updater.UpdateWorker.SetStatus | launcher/workers/update_worker.py:55-56 | `_status` appends one status event and nothing else |
| Updater.UpdateWorker.Log | launcher/workers/update_worker.py:58-59 | `_log` appends one log line and changes no other signal's history |
| Updater.UpdateWorker.ReportProgress | launcher/workers/update_worker.py:61-62 | `_progress` appends one clamped progress value |
| Updater.UpdateWorker.EmitDownloadProgress | launcher/workers/update_worker.py:137-140 | the download callback adds exactly the download percentages to the progress history |
| Updater.UpdateWorker.Acquire | launcher/workers/update_worker.py:128-146 | probe and download: the disk becomes what the download makes of it, the requests are the probe's plus the download's `GET`, the stages "probing" and "downloading" are announced and the progress gains the download percentages |
| Updater.UpdateWorker.Probe | launcher/workers/update_worker.py:128-133 | the probe's requests are recorded and the two stages are announced |
| Updater.UpdateWorker.Downloaded | launcher/workers/update_worker.py:137-146 | the download's `GET` is recorded only when it was sent, with its progress reports |
| Updater.UpdateWorker.LogDownload | launcher/workers/update_worker.py:143-146 | the four log lines change no request, stage, progress or done history |
| Updater.UpdateWorker.Unpack | launcher/workers/update_worker.py:151-170 | announces unzipping at 85%; a failure is "unzip failed: ..." or "exe not found in zip: CrawlProgram.exe" keeping the local executable; on success an executable lies in staging; only staging changes |
| Updater.UpdateWorker.Promote | launcher/workers/update_worker.py:172-182 | announces installing at 92%; a failure is "promote failed: ..."; every intermediate state keeps the old or the new version in place; on success the target holds what staging held; only staging, target and backup change |
| Updater.UpdateWorker.Save | launcher/workers/update_worker.py:184-193 | announces saving at 96%; at every step `current.json` holds the old or the new record; afterwards it reads back as the new state; only the record and its temporary file change |
| Updater.UpdateWorker.Cleanup | launcher/workers/update_worker.py:195-202 | announces cleanup at 98% and then 100%; removes the archive, `downloads_tmp` and `versions/_staging` in that order, touching nothing else |
| Updater.UpdateWorker.CleanupSteps | launcher/workers/update_worker.py:195-202 | the three cleanups in a row are the three-target cleanup, and touch nothing away from `downloads_tmp` and `versions/_staging` |
| Updater.UpdateWorker.Stage | launcher/workers/update_worker.py:151-182 | unpack then install; a failure names its step; on success the executable lies below the install target; nothing outside `versions` and `downloads_tmp` changes |
| Updater.UpdateWorker.Place | launcher/workers/update_worker.py:172-182 | after a successful promotion the staged executable lies below the target |
| Updater.UpdateWorker.Finish | launcher/workers/update_worker.py:184-208 | save, clean up and look again: a failed save escapes; success is "ok(installed)" with the executable below the install target and, in the standard layout, the record naming the new version |
| Updater.UpdateWorker.SavedAndCleaned | launcher/workers/update_worker.py:184-203 | saving and cleaning keep the installed executable and the new record in the standard layout |
| Updater.UpdateWorker.Deploy | launcher/workers/update_worker.py:151-208 | everything after a good download: stages and milestones announced in order, a failure message tied to the stage reached, and a successful install leaves the executable in place and the new record |
| Updater.UpdateWorker.Install | launcher/workers/update_worker.py:124-208 | no asset URL fails with "asset_url is empty" before any request; otherwise the run probes and downloads, stops with "download failed: ..." or an escaped error at the download, and continues to `Deploy` exactly when the download succeeded |
| Updater.UpdateWorker.Prepare | launcher/workers/update_worker.py:72-91 | progress 0, then the record is read and the server queried with one `GET` of the latest-release URL; the result is the plan the record and the server's answer decide |
| Updater.UpdateWorker.ReadState | launcher/workers/update_worker.py:72-78 | reads the record after sending progress 0 and announcing the first stage |
| Updater.UpdateWorker.Query | launcher/workers/update_worker.py:80-91 | one `GET` of the latest-release URL and the plan it decides |
| Updater.UpdateWorker.Settle | launcher/workers/update_worker.py:93-107 | no update due: the local executable is looked up; the result is "ok(local newer)" or "ok(up-to-date)" when it exists and "latest exe not found" otherwise |
| Updater.UpdateWorker.RunImpl | launcher/workers/update_worker.py:71-208 | `_run_impl`: stages are announced in order and progress is 0, the download percentages, then the milestones reached; nothing but the launcher's own directories and record changes; no write and no download unless automatic updates are on and the server is ahead; the result is what the plan settles on; a run that stops before saving leaves the record as it was; the paths are those of a program id that is one plain name |
| Updater.UpdateWorker.Decide | launcher/workers/update_worker.py:93-208 | after the comparison: up-to-date and newer-local reply with the local executable, an update without `auto_update` reports "update available" with the release, otherwise the install outcome |
| Updater.UpdateWorker.Upgrade | launcher/workers/update_worker.py:110-208 | the branch where the server is ahead, with the same promises as `Decide` |
| Updater.UpdateWorker.RunFrame | launcher/workers/update_worker.py:184-193 | a run that stopped before saving left the record unchanged in the standard layout |
| Updater.UpdateWorker.Run | launcher/workers/update_worker.py:64-69 | `run` sends exactly one done event, as the last event, carrying `_run_impl`'s result or the escaped exception as a failure |
| Updater.UpdateWorker.Attempt | launcher/workers/update_worker.py:64-66 | the `try` of `run`: `_run_impl` with its stages, progress, plan and outcome |
| Updater.UpdateWorker.Announce | launcher/workers/update_worker.py:67-69 | the unconditional emit after the `try`/`except` of `run` adds one done event carrying the reported result |
| NoticeStore.AcksOfClean | launcher/core/notice_store.py:32-36 | whatever the JSON object holds, the loop builds distinct, trimmed, non-blank keys mapped to integers |
| NoticeStore.LoadedAcksClean | launcher/core/notice_store.py:21-38 | `load_ack_map` returns such a clean map in every case, `{}` included |
| NoticeStore.FindAcks | launcher/core/notice_store.py:33-35 | a key is in the map exactly when some member with that trimmed key is a non-blank string key with an `int` value, and its value is the LAST such member's |
| NoticeStore.FindAcksStep | launcher/core/notice_store.py:33-35 | one more member either sets its trimmed key or leaves the map as it was |
| NoticeStore.ToMembers | launcher/core/notice_store.py:44 | `json.dumps(m)` writes the map's entries in order as the members of one object |
| NoticeStore.AcksOfToMembers | launcher/core/notice_store.py:33-44 | loading an object written from a clean map gives back that map |
| NoticeStore.AcksOfSnoc | launcher/core/notice_store.py:33-35 | appending one member runs one more step of the loop |
| NoticeStore.BlankNeverHidden | launcher/core/notice_store.py:48-53 | a blank or missing notice id is never hidden |
| NoticeStore.HiddenAfterPut | launcher/core/notice_store.py:53-65 | after hiding an id until `until`, it is hidden exactly at times before `until`, and every other id is as hidden as before |
| NoticeStore.LoadAckMap | launcher/core/notice_store.py:21-38 | a missing, unreadable, non-JSON or non-object file gives `{}`; otherwise the loop's map |
| NoticeStore.IsHidden | launcher/core/notice_store.py:48-53 | `is_hidden` is true exactly when the loaded map holds a deadline for the trimmed id later than now |
| NoticeStore.SaveAckMap | launcher/core/notice_store.py:41-45 | the file is at every step the old content or the complete new object, ends as the new object unless a write failed, and nothing but the file and its `.tmp` sibling changes |
| NoticeStore.LoadSaved | launcher/core/notice_store.py:21-45 | a saved clean map loads back unchanged |
| NoticeStore.HideForDay | launcher/core/notice_store.py:56-66 | a blank id changes nothing; otherwise the file afterwards loads as the old map with the id hidden until `now + seconds`, every other entry kept |
| LauncherAppConfig.LoadSupportConfig | launcher/core/app_config.py:15-41 | a missing, unreadable or non-JSON file gives `None`; a document that is not an object raises `AttributeError`, and only it raises; a configuration is returned exactly when `support` is an object whose `site_url` and `qna_url` are non-blank strings, and holds them trimmed |
| LauncherAppConfig.LoadedLinksTrimmed | launcher/core/app_config.py:33-41 | both links of a loaded configuration are trimmed and not blank |
| LauncherAppConfig.LoadOfSupportDoc | launcher/core/app_config.py:15-41 | a file holding `{"support": {"site_url": ..., "qna_url": ...}}` with trimmed links loads back as exactly that configuration |
| LauncherAppConfig.MissingFileGivesNone | launcher/core/app_config.py:18-19 | without the file there is no configuration and no error |
| AppConfigLoader.ReadJson | src/utils/app_config_loader.py:72-77 | the value is the file's JSON exactly when the path is a file holding JSON; a missing path raises `FileNotFoundError` with its message, a directory an `OSError`; bytes that are not UTF-8 raise `UnicodeDecodeError` with the decoder's message, other bytes that are not a document `JSONDecodeError`, refusing a leading byte-order mark by name |
| AppConfigLoader.FieldText | src/utils/app_config_loader.py:36-43 | `str(d.get(k) or "").strip()` is always trimmed |
| AppConfigLoader.TextOf | src/utils/app_config_loader.py:44 | `str(x).strip()` is always trimmed |
| AppConfigLoader.MapDictsStep | src/utils/app_config_loader.py:33-39 | one more entry of `site_list` either raises on `.get` or appends its record |
| AppConfigLoader.MapDictsOk | src/utils/app_config_loader.py:33-39 | the `site_list` loop succeeds exactly when every entry is a dict, and otherwise raises `AttributeError` |
| AppConfigLoader.MapDictsValues | src/utils/app_config_loader.py:33-39 | on success there is one record per entry, in order, each built from that entry |
| AppConfigLoader.MapDictsErrPersists | src/utils/app_config_loader.py:33-39 | once an entry raised, the whole loop raises that error |
| AppConfigLoader.UseList | src/utils/app_config_loader.py:44 | `site_list_use` keeps its length and every text is trimmed |
| AppConfigLoader.AppConfigOf | src/utils/app_config_loader.py:29-46 | `load_app_config` on the parsed document succeeds exactly when it is an object whose `site_list` and `site_list_use` can be iterated and whose site entries are all dicts; the result is trimmed throughout and has one site per entry |
| AppConfigLoader.SiteList | src/utils/app_config_loader.py:32-39 | the loop over `site_list` computes the records `MapDicts` describes |
| AppConfigLoader.LoadAppConfig | src/utils/app_config_loader.py:29-46 | reads `app.json` and builds the configuration, raising what reading or the loop raises |
| AppConfigLoader.MetaOfMetaDoc | src/utils/app_config_loader.py:34-39 | a site record with trimmed fields, written as `{"key", "config_path"}`, reads back unchanged |
| AppConfigLoader.MapDictsOfDicts | src/utils/app_config_loader.py:33-39 | a list of dicts that each map to the record at the same place gives exactly those records |
| AppConfigLoader.SiteMetasOfMetaDocs | src/utils/app_config_loader.py:33-39 | writing trimmed site records and reading them back gives them unchanged |
| AppConfigLoader.AppDocFields | src/utils/app_config_loader.py:33-44 | the fields `load_app_config` reads from a written configuration are the ones written |
| AppConfigLoader.AppConfigOfAppDoc | src/utils/app_config_loader.py:29-46 | the round trip: a trimmed configuration written as JSON loads back as the same configuration |
| AppConfigLoader.RelativePart | src/utils/app_config_loader.py:50 | the relative part never starts with `/` or `\` |
| AppConfigLoader.Components | src/utils/app_config_loader.py:54 | the path components that name something are non-empty and not `.` |
| AppConfigLoader.LoadSiteConfig | src/utils/app_config_loader.py:48-55 | a path blank once trimmed of whitespace and leading separators raises `ValueError("config_path is empty")`, and only such a path; otherwise the JSON of the file `SitePath` names: below the runtime directory, unless a drive-qualified path names another place |
| AppConfigLoader.ResolveWithoutParent | src/utils/app_config_loader.py:54 | without `..` the resolved path is the runtime directory followed by the components |
| AppConfigLoader.SitePathOfName | src/utils/app_config_loader.py:50-54 | a plain file name without a drive, with any whitespace and leading separators, is looked up directly in the runtime directory |
| AppConfigLoader.SitePathOfRootedDrive | src/utils/app_config_loader.py:50-54 | `D:/name` is absolute: the file read is `name` at the root of drive `D:`, outside the runtime directory, with the drive spelled as the tree spells it |
| AppConfigLoader.DriveCaseIgnored | src/utils/app_config_loader.py:50-54 | `c:/name` and `C:/name` read the same file |
| AppConfigLoader.SitePathOfSameDrive | src/utils/app_config_loader.py:50-54 | `C:name`, with the runtime directory's own drive in either case, reads `name` in the runtime directory |
| AppConfigLoader.RelativeOfLead | src/utils/app_config_loader.py:50 | leading separators before a trimmed name are dropped |
| AppConfigLoader.SelectedSitesMembers | src/utils/app_config_loader.py:62-66 | a site takes part exactly when it is listed, its key is not blank and the key is in `site_list_use` |
| AppConfigLoader.EnabledErrPersists | src/utils/app_config_loader.py:62-68 | once a selected site failed to load, the whole loop raises that error |
| AppConfigLoader.EnabledOfSelected | src/utils/app_config_loader.py:57-70 | on success there is one configuration per selected site, in `site_list` order, each the one its path loads |
| AppConfigLoader.EnabledFailsOnlyOnLoad | src/utils/app_config_loader.py:62-68 | the loop fails only with the error of some selected site's load |
| AppConfigLoader.EnabledPrefix | src/utils/app_config_loader.py:62-68 | one more site: skipped when not selected, otherwise its load error ends the loop or its configuration is appended |
| AppConfigLoader.LoadSelected | src/utils/app_config_loader.py:61-70 | the loop computes `EnabledBy` for the loader's `load_site_config` |
| AppConfigLoader.GetEnabledSiteConfigs | src/utils/app_config_loader.py:57-70 | `get_enabled_site_configs` loads the configuration and then the selected sites' files |
| SiteModel.FromDict | src/models/site.py:28-41 | the seven payload fields are the dict's values, `None` when absent; `enabled` is true exactly when the key is missing or its value is truthy; `popup` and `sites` are true exactly when present and truthy |
| SiteModel.FromEmptyDict | src/models/site.py:9-41 | an empty dict gives the default site, which is enabled |
| SiteModel.ExplicitNullDisables | src/models/site.py:34 | `{"enabled": null}` gives a disabled site: `bool(None)` is false, unlike a missing key |
| SiteModel.FromDictOfToDict | src/models/site.py:9-41 | the round trip: a site written as the dict of its fields reads back as the same site |
| SiteModel.DistinctKeysOfSite | src/models/site.py:9-22 | the dict of a site has ten distinct keys |
| StrUtils.KeepTrimmedNonBlank | src/utils/str_utils.py:19 | every kept piece is trimmed and not blank |
| StrUtils.KeepTrimmedCommaFree | src/utils/str_utils.py:19 | no kept piece holds a comma when no part did |
| StrUtils.SplitCommaKeywords | src/utils/str_utils.py:12-19 | every keyword returned is trimmed, not blank and free of commas |
| StrUtils.SplitCommaKeywordsOfAny | src/utils/str_utils.py:12-19 | for every text, including `""`, the keywords are the trimmed non-blank pieces of `split(",")` in order |
| StrUtils.SplitCommaKeywordsOfPiece | src/utils/str_utils.py:19 | a text without commas gives its trimmed self as the one keyword, or nothing when it is blank |
| StrUtils.SplitCommaKeywordsAppend | src/utils/str_utils.py:19 | the keywords of `a + "," + b` are those of `a` followed by those of `b` |
| StrUtils.SplitCommaKeywordsOfJoin | src/utils/str_utils.py:12-19 | trimmed, non-blank, comma-free keywords joined with commas split back into the same list |
| StrUtils.KeepTrimmedOfTrimmed | src/utils/str_utils.py:19 | a list of trimmed non-blank pieces is kept as it is |
| StrUtils.IntsOfDigits | src/utils/str_utils.py:29 | `int()` of each run of digits is its decimal value, one per run |
| StrUtils.ExtractNumbers | src/utils/str_utils.py:22-29 | `None` and `""` give `[]`; otherwise one number per maximal run of digits, left to right, each the run's decimal value and never negative |
| StrUtils.ExtractNumbersOfText | src/utils/str_utils.py:22-29 | numbers written in decimal and separated by spaces are read back exactly, in order |
| StrUtils.DigitRunsOfText | src/utils/str_utils.py:29 | the digit runs of such a text are exactly the numerals written |
| StrUtils.StrNorm | src/utils/str_utils.py:45-52 | the result holds no no-break and no zero-width space and is trimmed |
| StrUtils.StrClean | src/utils/str_utils.py:55-61 | the result holds no no-break space and is trimmed |
| StrUtils.StrCleanOfPlain | src/utils/str_utils.py:55-61 | text without no-break spaces is only trimmed |
| StrUtils.StrCleanOfNbsp | src/utils/str_utils.py:61 | a no-break space anywhere counts exactly as an ordinary space |
| StrUtils.StrNormOfPlain | src/utils/str_utils.py:45-52 | text without no-break and zero-width spaces is only trimmed |
| StrUtils.StrNormOfSpecial | src/utils/str_utils.py:52 | a no-break or zero-width space anywhere counts exactly as an ordinary space |
| StrUtils.StrNormIsStrClean | src/utils/str_utils.py:45-61 | `str_norm` is `str_clean` after zero-width spaces became spaces |
| StrUtils.StrNormIdempotent | src/utils/str_utils.py:45-52 | normalising twice is normalising once |
| StrUtils.NormOfNormed | src/utils/str_utils.py:45-52 | trimmed text without no-break or zero-width spaces is already normal |
| StrUtils.ToStr | src/utils/str_utils.py:64-71 | `None` gives the default; otherwise the trimmed `str(v)` when it is not blank and the default when it is |
| StrUtils.ToStrIdempotent | src/utils/str_utils.py:64-71 | feeding the result back returns it unchanged when the default is trimmed or blank |
| NumberUtils.CalculateDivmod | src/utils/number_utils.py:36-39 | a zero divisor raises `ZeroDivisionError`, and only it; otherwise `q * divisor + m == total` with the remainder in `0..divisor-1` for a positive divisor and in `divisor+1..0` for a negative one |
| NumberUtils.DivmodUnique | src/utils/number_utils.py:36-39 | those conditions pin the pair down, so the result is Python's floor `divmod` for every non-zero divisor |
| NumberUtils.ToIntDigits | src/utils/number_utils.py:42-47 | never negative; the decimal value of all the digits of the text taken together, 0 when there are none |
| NumberUtils.ToIntDigitsOfDigitFree | src/utils/number_utils.py:44-47 | text without a single digit gives 0 |
| NumberUtils.ToIntDigitsIgnoresSeparators | src/utils/number_utils.py:46-47 | digit-free text between two pieces does not change the value: "1,234" is 1234 |
| NumberUtils.IntOfText | src/utils/number_utils.py:52-56 | blank text gives the default; otherwise `int()` of the text without commas, or the default when that does not parse |
| NumberUtils.IntOfTextOfSeparator | src/utils/number_utils.py:52-56 | "5\x1c" is not blank for `strip()`, but `int()` refuses it, so `to_int` gives the default |
| NumberUtils.ToInt | src/utils/number_utils.py:50-56 | `None` and values whose `str()` is blank give the default; otherwise the integer `str(v)` spells once commas are removed, or the default when it spells none |
| NumberUtils.ToIntIgnoresCommas | src/utils/number_utils.py:54 | removing the commas first changes nothing |
| NumberUtils.ToIntOfInt | src/utils/number_utils.py:50-56 | an integer, and its decimal text, convert back to itself |
| NumberUtils.ParseIntRejectsLetter | src/utils/number_utils.py:54 | `int()` rejects text that starts with a letter |
| NumberUtils.ToIntOfBool | src/utils/number_utils.py:52-56 | a boolean gives the default, since `int("True")` fails |
| NumberUtils.IntOfTextIgnoresCommas | src/utils/number_utils.py:54 | the text form: removing the commas first changes nothing |
| NumberUtils.IntOfTextOfInt | src/utils/number_utils.py:52-56 | the decimal text of an integer converts back to it |
| NumberUtils.IntOfTextOfWord | src/utils/number_utils.py:52-56 | `"True"` and `"False"` give the default |
| FileUtils.CollapseSpacesClean | src/utils/file_utils.py:261 | after `re.sub(r"\s+", "_", ...)` no whitespace is left, and every other character comes from the input |
| FileUtils.CollapseSpacesOfSpaceFree | src/utils/file_utils.py:261 | text without whitespace is left alone |
| FileUtils.PrefixTo | src/utils/file_utils.py:263 | `s[:n]` is a prefix of `s` of length `n` capped at `len(s)`, or `len(s) + n` (at least 0) for a negative `n` |
| FileUtils.CleanText | src/utils/file_utils.py:259-261 | the trimmed, substituted text holds none of `\ / : * ? " < > \|` and no whitespace |
| FileUtils.SafeText | src/utils/file_utils.py:258-261 | `None` becomes `""`; any other value is its `str()` cleaned by `CleanText` |
| FileUtils.CleanTextOfUnsafe | src/utils/file_utils.py:260 | each of `\ / : * ? " < > \|`, wherever it stands, comes out exactly as a `_` written there would |
| FileUtils.CleanTextOfRun | src/utils/file_utils.py:261 | a whitespace run between two other characters becomes a single `_`, and the text on each side is cleaned on its own |
| FileUtils.CleanTextOfPadded | src/utils/file_utils.py:259 | whitespace around the text is dropped before anything else |
| FileUtils.LimitName | src/utils/file_utils.py:262-264 | never empty; a prefix of the cleaned text or `"noname"`; cut to `max_len` characters when `max_len` is positive and the text longer; kept whole when `max_len` is 0; `"noname"` for an empty text |
| FileUtils.SafeName | src/utils/file_utils.py:257-264 | the name is never empty and holds no unsafe character and no whitespace; it is the cleaned text cut to `max_len` when `max_len` is positive, the whole cleaned text when `max_len` is 0, and `"noname"` when nothing is left; it fits `max_len` whenever `max_len >= 6` |
| FileUtils.NoNameClean | src/utils/file_utils.py:264 | the fallback name is itself clean |
| FileUtils.SafeNameIdempotent | src/utils/file_utils.py:257-264 | a produced name comes back unchanged when the limit is 0 or at least 6 |
| FileUtils.SafeTextOfClean | src/utils/file_utils.py:258-261 | clean text is its own cleaned text |
| FileUtils.SafeNameOfFixedText | src/utils/file_utils.py:257-264 | clean non-empty text that fits the limit is its own name |
| FileUtils.SafeNameFallbackExceedsLimit | src/utils/file_utils.py:262-264 | with `max_len` 3 an empty name still gives the six characters of `"noname"` |
| FileUtils.FirstOf | src/utils/file_utils.py:267 | the first position from `from` on holding one of the delimiters, or the end |
| FileUtils.UrlPath | src/utils/file_utils.py:267 | `urlparse` raises only `ValueError` |
| FileUtils.ExtFor | src/utils/file_utils.py:268-276 | `.png` gives png; otherwise `.jpg` or `.jpeg` gives jpg; otherwise `.webp` gives webp and `.gif` gif; anything else falls back to jpg |
| FileUtils.ExtForOfSuffix | src/utils/file_utils.py:268-276 | whatever precedes it, a path ending in `.png`, `.jpg`, `.jpeg`, `.webp` or `.gif` gets png, jpg, jpg, webp or gif |
| FileUtils.GuessExt | src/utils/file_utils.py:266-276 | raises exactly when the bracket check of `urlparse` fails; otherwise one of the four extensions, chosen from the lower-cased path |
| FileUtils.UrlPathOfHttps | src/utils/file_utils.py:267 | for an `https` URL with a plain host and a path without query, fragment or parameters, the parsed path is that path |
| FileUtils.GuessExtOfHttps | src/utils/file_utils.py:266-276 | for such a URL the extension depends only on the end of its path, so `.../B.JPEG` gives jpg |
| WorkerFactory.Halves | src/workers/worker_factory.py:24-27 | there are halves exactly when the spec holds a `:`; they are the trimmed text before the first `:` and the trimmed rest |
| WorkerFactory.ResolveSpec | src/workers/worker_factory.py:24-41 | no `:` raises the format `ValueError` quoting the spec; a class is returned only when both halves are non-blank, the module is importable and defines that name as a `BaseApiWorker` subclass; every failure is a `ValueError`, `ImportError` or `TypeError` |
| WorkerFactory.Uncached | src/workers/worker_factory.py:16-18 | a blank spec raises "the worker_class text is empty" |
| WorkerFactory.HalvesOfPadded | src/workers/worker_factory.py:27 | whitespace around either half is dropped |
| WorkerFactory.LoadOfSpec | src/workers/worker_factory.py:12-41 | `module:Class` with any surrounding whitespace loads the worker class that module defines under that name |
| WorkerFactory.StripOfSpec | src/workers/worker_factory.py:16 | the outer padding of a spec is what `strip()` removes |
| WorkerFactory.SplitOnceAt | src/workers/worker_factory.py:27 | `split(":", 1)` splits at the first `:` |
| WorkerFactory.CacheAgreesAdd | src/workers/worker_factory.py:40 | caching a class that loads correctly keeps every cached entry equal to what loading its spec gives |
| WorkerFactory.Factory.constructor | src/workers/worker_factory.py:9 | the cache starts empty and nothing has been imported |
| WorkerFactory.Factory.LoadWorkerClass | src/workers/worker_factory.py:12-41 | the result is always what loading the trimmed spec gives without a cache; a cached spec imports nothing and changes nothing; an uncached one imports the module only once the spec is well formed and caches the class only on success |
| WorkerFactory.Factory.CreateWorkerFromSiteConfig | src/workers/worker_factory.py:44-50 | a configuration that is not a dict raises on `.get`; otherwise the worker is an instance of the class its trimmed `worker_class` names, and a missing field raises the empty-spec `ValueError`; the cache and the imported modules change exactly as loading the trimmed spec changes them, and not at all for a non-dict |
| WorkerFactory.ImportedBy | src/workers/worker_factory.py:24-31 | at most one module is imported, and only the module half of a spec with a `:` and a non-blank class half |
| WorkerFactory.LoadTwice | src/workers/worker_factory.py:20-40 | loading the same spec twice gives the same answer, and a successful load leaves the spec cached |
| BaseWorker.SettingValue | src/workers/api_base_worker.py:93-97 | the only error is `AttributeError`, from an item that is not a dict |
| BaseWorker.SettingValueFirstMatch | src/workers/api_base_worker.py:94-96 | the first dict whose `code` equals the name decides the value, whatever follows it |
| BaseWorker.SettingValueNoMatch | src/workers/api_base_worker.py:94-97 | a list of dicts none of which carries the name gives `None` |
| BaseWorker.GetSettingValue | src/workers/api_base_worker.py:93-97 | a list is searched item by item; a value that cannot be iterated raises `TypeError` |
| BaseWorker.ConcatDictsErrIff | src/workers/api_base_worker.py:115-120 | the comprehension raises `AttributeError` exactly when some item is not a dict |
| BaseWorker.ConcatDictsAppend | src/workers/api_base_worker.py:115-120 | the comprehension distributes over concatenation |
| BaseWorker.CheckedValuesMeaning | src/workers/api_base_worker.py:115-120 | the checked values of a concatenation are those of each part in order, a single dict keeps `str(value)` exactly when its `checked` is truthy, and the filter raises exactly on a list with an item that is not a dict |
| BaseWorker.CheckedValuesNone | src/workers/api_base_worker.py:115-120 | dicts none of which is checked keep nothing |
| BaseWorker.CheckedList | src/workers/api_base_worker.py:111-120 | a falsy argument gives `[]`; a list gives its checked values; a value that cannot be iterated raises `TypeError` |
| BaseWorker.RunOrder | src/workers/api_base_worker.py:48-70 | `init` is called first; `main` exactly when `init` returned true, and never after `destroy`; `destroy` always; the run ends with "finished" exactly when `init` returned true and no hook raised, and otherwise with a call to `destroy` |
| BaseWorker.RunDestroysOnceOrTwice | src/workers/api_base_worker.py:48-70 | `destroy` runs once, or twice exactly when its regular call raised, since the `except` branch calls it again |
| BaseWorker.DestroysAfterMain | src/workers/api_base_worker.py:57-70 | after `main`, `destroy` runs twice exactly when `main` returned and `destroy` then raised |
| BaseWorker.ApiWorker.constructor | src/workers/api_base_worker.py:27-43 | empty columns and sites, running, every other field `None` |
| BaseWorker.ApiWorker.SetColumns | src/workers/api_base_worker.py:111-115 | `columns` becomes the checked values, or stays `[]` when the argument is falsy or reading it raised, with the error passed on; nothing else changes |
| BaseWorker.ApiWorker.SetSites | src/workers/api_base_worker.py:117-120 | the same filter, stored in `sites`; nothing else changes |
| BaseWorker.ApiWorker.Run | src/workers/api_base_worker.py:48-70 | the events `run()` emits are exactly those `RunEvents` lists, and no other field changes |
| GlobalStore.InitialData | src/core/global_state.py:44-59 | the initial data holds exactly the ten keys, each mapped to `""` |
| GlobalStore.GlobalState.constructor | src/core/global_state.py:32-38 | a new instance has empty data and is not initialized |
| GlobalStore.GlobalState.Get | src/core/global_state.py:65-67 | the stored value, or the default when the key is absent |
| GlobalStore.GlobalState.Initialize | src/core/global_state.py:44-59 | the first call installs the ten blank keys; later calls change nothing |
| GlobalStore.GlobalState.Set | src/core/global_state.py:61-63 | the key now reads as the value and every other key as before |
| GlobalStore.GlobalState.Remove | src/core/global_state.py:69-72 | the key now reads as the default, an absent key is a no-op, and every other key reads as before |
| GlobalStore.GlobalState.Clear | src/core/global_state.py:74-76 | the data is empty and the initialized flag is kept |
| GlobalStore.GlobalStateClass.constructor | src/core/global_state.py:32-38 | before the first call there is no instance |
| GlobalStore.GlobalStateClass.Call | src/core/global_state.py:32-38 | the first call creates one fresh, empty, uninitialized instance; every call returns that same instance |
| GlobalStore.SharedAndInitializedOnce | src/core/global_state.py:32-76 | two calls share one instance, and a second `initialize()` after a `set` keeps the value set |
| MainConfig.ReadRuntimeAppJson | main.py:56-80 | a missing `runtime/app.json` raises `FileNotFoundError` naming the path; the top-level object is returned exactly when the file holds a JSON object; a directory fails with an `OSError`; every other failure is a `ValueError` or one of its subclasses: the `UnicodeDecodeError` of the `utf-8-sig` retry escapes unwrapped, exactly when both reads refuse the bytes, and a JSON failure is wrapped with "runtime/app.json JSON 파싱 실패: "; a well-formed file that starts with a byte-order mark fails with "Unexpected UTF-8 BOM" |
| MainConfig.ParseFailed | main.py:73-76 | a failed `json.loads` becomes a `ValueError` whose message is "runtime/app.json JSON 파싱 실패: " followed by the original message, so a byte-order-mark refusal stays recognisable |
| TextDecode.DecodeError | launcher/core/state.py:29 | strict UTF-8 decoding fails exactly when the bytes hold a malformed sequence, and its message is the one `UnicodeDecodeError` prints, starting "'utf-8' codec can't decode byte" |
| TextDecode.FaultIsFirst | launcher/core/state.py:29 | the decoder reports the first malformed sequence: the bytes before it are well-formed |
| TextDecode.FaultOfDrop | launcher/core/state.py:29 | dropping the bytes before a sequence boundary changes only the positions reported, not whether or why the bytes are refused |
| TextDecode.WellFormedPrefix | launcher/core/state.py:29 | after a well-formed prefix, decoding goes on from its end as if it had just started |
| TextDecode.LeadOfPrefix | launcher/core/state.py:29 | what sequence a lead byte starts depends only on it and the bytes it announces, not on what follows |
| TextDecode.LeadOfDrop | launcher/core/state.py:29 | dropping earlier bytes moves a sequence without changing whether or why it is refused |
| TextDecode.EncodeFrom | launcher/core/state.py:29 | RFC 3629 encoded text decodes without fault from the sequence boundary where it starts, whatever precedes it |
| TextDecode.EncodeWellFormed | launcher/core/state.py:29 | every sequence of Unicode scalar values, encoded as UTF-8 by section 3 of RFC 3629, is accepted by the decoder |
| TextDecode.LoneContinuationRefused | launcher/core/state.py:29 | a continuation byte with no lead is refused as "invalid start byte" at its own position |
| TextDecode.SurrogateRefused | launcher/core/state.py:29 | an encoded surrogate is refused as "invalid continuation byte", naming its first byte |
| TextDecode.TruncatedRefused | launcher/core/state.py:29 | a sequence cut off by the end of the file is refused as "unexpected end of data" over a range of positions |
| TextDecode.SigDecodeError | main.py:71 | with `utf-8-sig` a leading byte-order mark is dropped before decoding, and any other bytes decode as with `utf-8` |
| TextDecode.BomDecodesAsText | main.py:68-71 | the byte-order mark is itself well-formed, so the strict read refuses a file starting with one exactly when the `utf-8-sig` read does |
| TextDecode.SigRetryRescues | main.py:67-71 | after a failed strict read the `utf-8-sig` retry succeeds exactly for a file that is the first one or two bytes of a byte-order mark |
| TextDecode.LoadsError | launcher/core/state.py:29 | `json.loads` names the byte-order mark exactly when the decoded text starts with one |
| MainConfig.AllowMultiInstance | main.py:83-91 | a missing key forbids several instances; otherwise the value's Python truthiness decides, so `true` and even the string `"false"` allow them |
| MainConfig.DefaultKeyEnds | main.py:98-102 | the default key `my_pyside_app` has no whitespace at either end |
| MainConfig.StripOr | main.py:101-102 | `t.strip() or fallback` is never blank and always trimmed: the trimmed text when it is not blank, the fallback otherwise |
| MainConfig.SingleInstanceKey | main.py:94-102 | the lock key is never blank and has no whitespace at either end; a missing key gives `my_pyside_app`; otherwise the trimmed `str()` of the value, or the default when that is blank |
| MainConfig.NullInstanceKey | main.py:100-101 | an explicit `null` is not the default: the lock key becomes `None` |
| MainConfig.StartupOf | main.py:185-204 | start-up fails with the error's message exactly when reading the runtime file fails, always when it is missing; otherwise it takes no lock when several instances are allowed, and else locks on the key `_get_single_instance_key` chooses, which is never blank |
| MainConfig.ByKeyErrIff | main.py:171-176 | the loop raises `AttributeError` exactly when some configuration is not a dict |
| MainConfig.ByKeyClean | main.py:171-176 | the built dict has distinct, non-blank keys and every value is one of the configurations |
| MainConfig.ByKeyErrPersists | main.py:171-176 | once the loop raised on a prefix, the whole loop raises that error |
| MainConfig.ByKeyLast | main.py:171-176 | the value under a non-blank key is the last configuration carrying that key |
| MainConfig.ByKeyAbsent | main.py:171-176 | the blank key, and a key no configuration carries, are absent |
| MainConfig.SiteConfigsByKeyMeaning | main.py:171-176 | for the key reader of `main.py`: an error exactly when some configuration is not a dict; nothing under the blank key or an unused key; under every other key the last configuration carrying it |
| MainConfig.SiteConfigsByKey | main.py:171-176 | the loop computes the dict `ByKey` describes |
| Common.LStrip | launcher/core/versioning.py:23 | `s.lstrip()` drops exactly the leading whitespace: a suffix of the text, all whitespace before it, none at its start |
| Common.RStrip | launcher/core/versioning.py:23 | `s.rstrip()` drops exactly the trailing whitespace: a prefix of the text, all whitespace after it, none at its end |
| Common.Strip | launcher/core/versioning.py:23 | `str.strip()`: no longer than the text, with no whitespace at either end |
| Common.StripEmptyIff | launcher/core/state.py:34-39 | `s.strip()` is empty exactly when every character is whitespace |
| Common.StripIdempotent | launcher/core/versioning.py:23-28 | stripping twice is stripping once |
| Common.Upper | launcher/core/api.py:118 | `str.upper()` maps `a`-`z` to `A`-`Z` and keeps every other character |
| Common.Lower | src/utils/file_utils.py:267 | `str.lower()` maps `A`-`Z` to `a`-`z` and keeps every other character |
| Common.Split | launcher/core/versioning.py:30 | `s.split(".")`: the pieces between separators, none holding the separator |
| Common.JoinSplit | launcher/core/versioning.py:30 | joining the pieces of a split gives back the text |
| Common.SplitOnce | src/workers/worker_factory.py:27 | `s.split(":", 1)`: `None` without a separator; otherwise the text before the first separator and the rest |
| Common.ReplaceAny | launcher/core/state.py:19 | `str.replace` of single characters: no replaced character is left and every other character stays |
| Common.RemoveChar | src/utils/number_utils.py:54 | `str(v).replace(",", "")`: no comma is left, nothing else is added, and text without a comma is unchanged |
| Common.RemoveCharAppend | src/utils/number_utils.py:54 | removing works piece by piece, so the other characters keep their order |
| Common.RemoveCharOfOne | src/utils/number_utils.py:54 | one character is dropped exactly when it is the comma |
| Common.IntToString | launcher/workers/update_worker.py:146 | `str(n)` of an integer: an optional `-` followed by decimal digits |
| Common.StrRepr | launcher/core/installer.py:58 | `repr` of a `str`, as `str(e)` quotes a file name: the text between two equal quotes, `"` when it holds `'` and no `"`, otherwise `'` |
| Common.StrReprOfPlain | launcher/core/installer.py:58 | text without quotes, backslashes or control characters shows between single quotes unchanged |
| Common.StrReprDoublesBackslash | launcher/core/installer.py:58 | a backslash shows doubled, so `C:\a` shows as `'C:\\a'` |
| Common.ParseInt | launcher/core/versioning.py:35-37 | `int(s)` in base 10 gives a number only for text that is not blank; the value it gives is fixed by ParseIntOfIntToString, and the whitespace it skips by ParseIntOfPadded and ParseIntRejectsSeparator |
| Common.ParseIntOfPadded | launcher/core/versioning.py:35-37 | padding made of the whitespace `int()` skips (ASCII 0x09-0x0D, the space, non-ASCII Unicode whitespace) changes nothing |
| Common.ParseIntRejectsSeparator | launcher/core/versioning.py:35-37 | one of U+001C-U+001F at either end makes `int()` fail, although `strip()` would drop it |
| Common.ParseIntOfIntToString | launcher/core/versioning.py:35-37 | `int(str(n)) == n` |
| Common.DigitRuns | src/utils/str_utils.py:29 | `re.findall(r"\d+", s)`: the maximal runs of digits, left to right, each non-empty and all digits |
| Common.DigitsOf | src/utils/number_utils.py:46-47 | `"".join(re.findall(r"\d+", s))`: all the digits of the text, in order |
| Common.ConcatDigitRuns | src/utils/number_utils.py:46-47 | joining the digit runs gives all the digits of the text |
| Dicts.Find | src/core/global_state.py:65-67 | `d.get(k)`: a value exactly when the key is present, and then the value stored under it |
| Dicts.Put | main.py:175 | `d[k] = v`: `k` now reads as `v`, every other key as before; a new key is appended at the end |
| Dicts.PutKeepsDistinct | main.py:175 | storing a key keeps the keys distinct |
| JsonValue.Get | launcher/core/api.py:50-51 | `obj.get(k)`: `None` exactly when no member has the key, and otherwise the value of a member with that key |
| JsonValue.GetAt | launcher/core/api.py:50-51 | `get` finds the first member with the key |
| JsonValue.TrimmedText | launcher/core/api.py:53-56 | `isinstance(v, str) and v.strip()` holds exactly for a non-blank string, whose trimmed text is then returned |
| JsonValue.AsObject | launcher/core/api.py:50 | calling `.get` works exactly on a dict and otherwise raises `AttributeError` |
| JsonValue.Iterate | main.py:172 | `for x in v`: a list gives its items, a dict its keys, a string its characters; anything else raises `TypeError` |
| Http.HeaderValue | launcher/core/downloader.py:52 | `res.headers.get(name)` compares names case-insensitively: `None` exactly when no header has the name |
| Http.TextHead | launcher/core/api.py:43 | `res.text[:200]` is a prefix of the text of at most 200 characters, all of it when shorter |
| FileSystem.WithSuffix | launcher/core/state.py:59 | `p.with_suffix(s)` names an entry of the same directory |
| FileSystem.WithLongerSuffix | launcher/core/downloader.py:42 | `with_suffix(suffix + ".part")` appends `.part` to the name |
| FileSystem.FileAncestorIsFile | launcher/core/installer.py:17 | the path the `mkdir` error names is a file on the way to the directory |
| FileSystem.Disk.Read | launcher/core/state.py:29 | reading the raw content succeeds exactly on a file and gives that content; a missing path raises `FileNotFoundError` and a directory an `OSError`, each with a message ending with the path as `repr` writes it |
| FileSystem.Disk.Mkdirs | launcher/core/installer.py:17 | `mkdir(parents=True, exist_ok=True)`: the error is the one the path's state gives, naming the file that stands on the way; otherwise the missing directories are added, and no existing entry changes either way |
| FileSystem.Disk.Write | launcher/core/state.py:61 | `write_text` replaces the file's content, or fails with a message naming the path and changes nothing |
| FileSystem.Disk.Append | launcher/core/downloader.py:61 | `f.write(chunk)` appends the chunk to the open file and changes nothing else |
| FileSystem.Disk.Unlink | launcher/core/downloader.py:73 | `unlink()` removes the file, or fails and changes nothing: a missing path with WinError 2, a directory with WinError 5, a file held open with WinError 32, each naming the path |
| FileSystem.Disk.Rename | launcher/core/installer.py:46-49 | `rename` moves the whole subtree, or fails with a message ending `'src' -> 'dst'` and changes nothing: a missing source inside an existing directory with WinError 2, a missing directory on either side with WinError 3, an existing target with WinError 183; only the two ends change |
| FileSystem.Disk.Replace | launcher/core/state.py:62 | `replace` moves the source over the target, or fails with a message ending `'src' -> 'dst'` and changes nothing |
| FileSystem.Disk.RmTree | launcher/core/installer.py:16-53 | `rmtree(ignore_errors=True)` never raises and removes everything below the path except open files and the directories holding them |
| FileSystem.Disk.ExtractAll | launcher/core/installer.py:20 | `extractall` places the archive below the directory, or fails with the first refusal; it never changes anything away from the directory |
| FileSystem.RenamedFile | launcher/core/downloader.py:77 | renaming a plain file moves that one entry |
| FileSystem.SubtreeOfRenamedDst | launcher/core/installer.py:49 | after a rename the target holds exactly what the source held |
| FileSystem.RenamedDropsSrc | launcher/core/installer.py:49 | after a rename nothing is left at or below the source |
| FileSystem.RmTreeRemnants | launcher/core/installer.py:16-70 | after `rmtree` only open files, the directories holding them, or a plain file at the path itself remain |
| FileSystem.KeepsTrans | launcher/core/installer.py:8-24 | two steps that each change nothing away from their roots together change nothing away from the union |

## Left out

- Common.IsDigit: only the ASCII digits `0`-`9` count. Python's `\d`, `str.isdigit` and `int()` also accept every other Unicode decimal digit (fullwidth `３`, Arabic-Indic `١`); the Unicode digit table is not modelled.
- Common.ParseInt: accepts ASCII digits only, so `int("١")`, which Python evaluates to 1, is a `ValueError` here. Python's limit of 4300 digits on `int()` is not modelled either.
- Common.DigitRuns: `re.findall(r"\d+")` over ASCII digits only, so fullwidth and other Unicode digits are treated as separators.
- StrUtils.ExtractNumbers: ASCII digits only, so `"３５"` gives `[]` here and `[35]` in Python.
- NumberUtils.ToIntDigits: ASCII digits only, so `"１"` gives 0 here and 1 in Python.
- Versioning.ParseSemver: a part written with non-ASCII decimal digits is rejected, which Python's `int()` would accept.
- Common.Upper: maps `a`-`z` only. `str.upper()` maps all of Unicode (`é` to `É`, `ß` to `SS`). Api.Level inherits this.
- Api.Level: the level is upper-cased in ASCII only (see Common.Upper).
- Common.Lower: maps `A`-`Z` only. FileUtils.GuessExt inherits this, so a non-ASCII suffix is not lower-cased the way Python would.
- FileUtils.GuessExt: ASCII lower-casing only (see Common.Lower). `urlparse` is reduced to taking the path part of the URL.
- Updater.DownloadPercents: the percentage is the integer `written * 80 / total`. The source computes `int((written / total) * 80)` in floating point, and the two can differ by one where the float product rounds.
- Updater.Stage: the Korean status texts that `_status` emits are replaced by the enumeration `Stage`, one value per text, in the same order.
- JsonValue.Get: on an object that repeats a key, the first occurrence wins. `json.loads` keeps the last one, so `{"a": 1, "a": "x"}` reads `a` as `1` here and as `"x"` in Python.
- NoticeStore.AcksOf: folds the members in document order, and each accepted member overwrites the entry for its trimmed key. Python first collapses repeated keys (the last value, kept at the position of the first occurrence) and then folds. The two differ when a key repeats and its last occurrence is rejected while an earlier one is accepted: `{"a": 1, "a": "x"}` gives `{"a": 1}` here and `{}` in Python. They also differ when repeated keys interleave with keys that trim to the same id.
- NoticeStore.LoadAckMap: returns NoticeStore.AcksOf of the document, so it differs from Python on repeated keys in the same cases.
- Updater.FindExe: matches the executable's name case-sensitively, where `Path.rglob` on Windows ignores case. Which match `rglob` yields first is left open.
- FileSystem: path names other than drive names compare case-sensitively, while Windows file systems ignore case. So `versions/V1_0_0` and `versions/v1_0_0` are two directories here and one on Windows. Only the refusals listed under modelling choices follow Windows.
- Common.StrRepr: escapes the backslash, the quote and the ASCII control characters, but writes every other character as it is. Python's `repr` also escapes the characters Unicode counts as non-printable (U+200B, for one) as `\u` sequences. JsonValue.Repr and the file names in OS error messages inherit this.
- `_bootstrap_runtime_config` (main.py:150-176) is modelled only for its `site_configs_by_key` loop. Its call `get_enabled_site_configs(app_conf)` at main.py:160 passes an argument that the method (src/utils/app_config_loader.py:57) does not take, so it raises `TypeError` as written. It also uses the constants `GlobalState.APP_CONFIG` and `GlobalState.SITE_CONFIGS`, which global_state.py does not define. `AppConfigLoader.Loader.GetEnabledSiteConfigs` models the method as declared.
- FileSystem.Disk.ExtractAll: extraction is all or nothing, and a failure leaves the tree unchanged. `zipfile.extractall` writes one member at a time, so when a member fails (an open file to overwrite, a file where a directory is needed) the members before it are already on disk below the directory. The order of the archive's members is not modelled, so the model cannot say which ones. The frame `Keeps(old, new, {dir})` holds for that partial state too, so the `unzip failed` cases of Installer.FillStaging, Installer.UnzipToStaging and Updater.UpdateWorker.Unpack, which promise only that frame, describe the source as well. For the same reason, an extraction error's message leaves out the member's file name, which Python appends.
- Updater.ZipPath: treats `program_id` as one plain path name, and so do Updater.StagingDir and everything built on them. The source joins it with pathlib's `/` (launcher/workers/update_worker.py:135, 155). There, `..` climbs a level, a separator nests deeper, and a rooted or drive-qualified id (`/x`, `C:/x`) replaces the base. The record check only asks for a non-blank string (launcher/core/state.py:31-46).
- Updater.StagingDir: see Updater.ZipPath. With `program_id = ".."`, the source's staging directory `versions/_staging/../<dir>` is the target itself.
- Updater.StagingIsSeparate: holds for the model's paths, so only for a plain-name `program_id` in the source (see Updater.ZipPath).
- Updater.Placed: holds for the model's paths only. With `program_id = "/x"` the source puts the archive at `C:/x_<version>.zip` and the staging directory at `C:/x/<dir>`, outside `versions` and `downloads_tmp`.
- Updater.UpdateWorker.RunImpl: its outcome and its `Keeps` frame describe the source only for a plain-name `program_id`. With `..` the source moves the staged tree to `<dir>__bak` while backing up the target, the following rename fails, and the run returns `promote failed: ...` where the model installs. With `/x` a failed unzip leaves the archive outside the launcher's directories.
- `load_site_config` with a path on another drive and no separator after the drive (`D:x.json`) reads relative to that drive's current directory, which is process state; AppConfigLoader.SitePath takes it to be the drive's root. UNC paths (`\\server\share`) cannot reach the join, because leading separators are stripped first.
- State.ReadCurrentState: for well-formed UTF-8 that is not a JSON document, the `JSONDecodeError` message is the byte-order-mark message or else "Expecting value: line 1 column 1 (char 0)". Python's message depends on where its scanner stops in the text (`Expecting ',' delimiter: line 3 column 5 (char 20)`), and JSON text is not modelled, so the message is exact only for a byte-order mark, an empty or blank file, or a file that starts with no JSON value.
- AppConfigLoader.ReadJson: the same `JSONDecodeError` message as State.ReadCurrentState, for the same reason.
- MainConfig.ReadRuntimeAppJson: the same `JSONDecodeError` message as State.ReadCurrentState after the "JSON 파싱 실패" prefix, for the same reason. As written, the `utf-8-sig` retry at main.py:68-71 runs only when the strict read fails, which a byte-order mark does not cause: a file that starts with one reaches `json.loads`, which refuses it. TextDecode.SigRetryRescues states which files the retry does rescue.
- Default arguments are explicit parameters of the model: `safe_name`'s `max_len=40` (FileUtils.SafeName), `to_str`'s `default=""` (StrUtils.ToStr), `calculate_divmod`'s `divisor=30` (NumberUtils.CalculateDivmod), `to_int`'s `default=0` (NumberUtils.ToInt) and `GlobalState.get`'s `default=None` (GlobalStore.GlobalState.Get). A call that leaves one out is the call with that value.
- The Qt parts of `main.py` are not modelled: the application object, the alert dialog, `QLockFile` in `_acquire_single_instance_lock` and `_release_single_instance_lock`, and the event loop. `MainConfig.StartupOf` stops at the choice of lock key.
- `_get_base_path` (main.py:43-53) and `launcher/core/paths.py` depend on `sys.frozen` and on the executable's location; the base directory and the `LauncherPaths` are parameters.
- `_run_latest` and `try_run` (launcher/workers/update_worker.py:30-35, 216-230) start a process through `launcher/core/runner.py`, which is not part of this model; the model stops at the resolved executable path.
- `asset_sha256` and `asset_size` are parsed (launcher/core/api.py:58-69) and kept in `Api.LatestInfo`, but the update worker never checks them, and neither does the model.
- The plain setters of the base worker (`set_setting`, `set_setting_detail`, `set_excel_data_list`, `set_user`, `set_region`; src/workers/api_base_worker.py:99-109, 122-123) only store their argument. They are not modelled, and neither are the signal helpers at src/workers/api_base_worker.py:75-90.
- The subclass hooks `init`, `main` and `destroy` are parameters of `BaseWorker.ApiWorker.Run`: each call's outcome (a return value or an exception) is given.
- WorkerFactory: `cls()` in `create_worker_from_site_config` is taken to succeed. An import that fails for a reason other than a missing module is not modelled.
- `get_query_params` (src/utils/str_utils.py:32-42) depends on `urllib.parse` and is not modelled.
- `divide_and_truncate`, `divide_and_truncate_per` and `to_float` (src/utils/number_utils.py:12-33, 59-68) work on floats and are not modelled.
- The I/O methods of `src/utils/file_utils.py` (folders, saving and deleting files, image download, reading JSON resources) are not modelled; only `safe_name` and `guess_ext` are.
- Thread lifecycles and Qt signals are not modelled. The update worker runs as one sequential method that appends its signals to an event log.
- Http.HeaderValue: takes the value of the first header whose name matches. `requests` joins the values of a repeated header with `", "`, so a response with two `Content-Length` headers gives a total of 0 in the source (the joined text does not parse) and the first value here.
- FileUtils.UrlPath: only checks that `[` and `]` appear together in the network location. Newer Python versions also check that a bracketed host is a valid IPv6 or IPvFuture address and raise `ValueError` otherwise. The NFKC check of `urlsplit` is not modelled either: a non-ASCII network location that gains one of `/ ? # @ :` under NFKC normalisation (`https://℀/x.png`) raises `ValueError` in Python and is accepted here, because Unicode normalisation is not modelled.
- Timeouts, redirects, symbolic links, disk-full errors and file permissions other than "held open by another process" are not modelled.
