/** `launcher/core/downloader.py`: reachability probe and streamed download
    through a `.part` file that is renamed into place at the end. */
module Downloader {
  import opened Common
  import opened Dicts
  import opened FileSystem
  import opened Http

  // ---------------------------------------------------------------------------
  // probe_url
  // ---------------------------------------------------------------------------

  /** The `(ok, msg, headers)` triple of `probe_url`. */
  datatype Probe = Probe(ok: bool, msg: string, headers: Option<Dict<string>>)

  predicate RepliedOk(r: Reply) {
    r.Replied? && r.response.status == 200
  }

  /** `probe_url(url)`: a `HEAD` answered with 200 settles it; anything else
      (another status or an exception) falls back to a streamed `GET`. */
  function ProbeUrl(net: Network, url: string): (p: Probe)
    ensures p.ok <==> RepliedOk(net.head(url)) || RepliedOk(net.get(url))
    ensures p.headers.Some? <==> p.ok
    ensures RepliedOk(net.head(url)) ==>
      p == Probe(true, "ok(head)", Some(net.head(url).response.headers))
    ensures !RepliedOk(net.head(url)) && net.get(url).Replied? ==>
      (p.ok ==> p == Probe(true, "ok(get)", Some(net.get(url).response.headers)))
      && (!p.ok ==> p.msg == "bad status(get): " + IntToString(net.get(url).response.status))
    ensures !RepliedOk(net.head(url)) && net.get(url).Raised? ==>
      p == Probe(false, "request failed: " + net.get(url).reason, None)
  {
    var h := net.head(url);
    if RepliedOk(h) then Probe(true, "ok(head)", Some(h.response.headers))
    else
      match net.get(url)
      case Raised(reason) => Probe(false, "request failed: " + reason, None)
      case Replied(res) =>
        if res.status != 200 then Probe(false, "bad status(get): " + IntToString(res.status), None)
        else Probe(true, "ok(get)", Some(res.headers))
  }

  // ---------------------------------------------------------------------------
  // What the download loop computes
  // ---------------------------------------------------------------------------

  /** The bytes the chunks carry, in order. */
  function Received(chunks: seq<seq<byte>>): (b: seq<byte>)
    decreases |chunks|
  {
    if chunks == [] then [] else Received(chunks[..|chunks| - 1]) + chunks[|chunks| - 1]
  }

  /** The chunks the loop does not skip. */
  function NonEmpty(chunks: seq<seq<byte>>): (ne: seq<seq<byte>>)
    ensures forall i :: 0 <= i < |ne| ==> ne[i] != [] && ne[i] in chunks
    decreases |chunks|
  {
    if chunks == [] then []
    else
      var last := chunks[|chunks| - 1];
      var ne := NonEmpty(chunks[..|chunks| - 1]);
      assert forall c :: c in chunks[..|chunks| - 1] ==> c in chunks;
      if last == [] then ne else ne + [last]
  }

  /** The sum of the lengths of the chunks. */
  function TotalLength(chunks: seq<seq<byte>>): nat
    decreases |chunks|
  {
    if chunks == [] then 0 else TotalLength(chunks[..|chunks| - 1]) + |chunks[|chunks| - 1]|
  }

  /** The `(written, total)` pairs handed to `progress_cb`: one per non-empty
      chunk, after that chunk was written. */
  function ProgressCalls(chunks: seq<seq<byte>>, total: int): seq<(int, int)>
    decreases |chunks|
  {
    if chunks == [] then []
    else
      var last := chunks[|chunks| - 1];
      ProgressCalls(chunks[..|chunks| - 1], total)
        + (if last == [] then [] else [(|Received(chunks)|, total)])
  }

  /** Empty chunks contribute nothing: what is written is the concatenation of
      the non-empty chunks, and its length the sum of their lengths. */
  lemma {:induction false} ReceivedSkipsEmpty(chunks: seq<seq<byte>>)
    ensures Received(chunks) == Received(NonEmpty(chunks))
    ensures |Received(chunks)| == TotalLength(NonEmpty(chunks))
    decreases |chunks|
  {
    if chunks != [] {
      var init, last := chunks[..|chunks| - 1], chunks[|chunks| - 1];
      ReceivedSkipsEmpty(init);
      var ne := NonEmpty(init);
      if last != [] {
        assert (ne + [last])[..|ne|] == ne;
      } else {
        assert Received(chunks) == Received(init) + [];
      }
    }
  }

  /** The progress reports: one per non-empty chunk, the running totals rise
      strictly, every report carries the same total, and the last one is the
      number of bytes received. */
  lemma {:induction false} ProgressCallsRise(chunks: seq<seq<byte>>, total: int)
    ensures var calls := ProgressCalls(chunks, total);
      && |calls| == |NonEmpty(chunks)|
      && (forall i :: 0 <= i < |calls| ==> 0 < calls[i].0 <= |Received(chunks)| && calls[i].1 == total)
      && (forall i, j :: 0 <= i < j < |calls| ==> calls[i].0 < calls[j].0)
      && (calls != [] ==> calls[|calls| - 1].0 == |Received(chunks)|)
    decreases |chunks|
  {
    if chunks != [] {
      var init, last := chunks[..|chunks| - 1], chunks[|chunks| - 1];
      ProgressCallsRise(init, total);
      var before := ProgressCalls(init, total);
      assert |Received(chunks)| == |Received(init)| + |last|;
      if last == [] {
        assert ProgressCalls(chunks, total) == before;
      }
    }
  }

  /** `int((res.headers.get("content-length") or "0").strip() or "0")`, with
      any exception turned into 0. A missing, empty or blank header all end
      as `int("0")`; otherwise the total is the stripped header parsed as an
      integer, or 0 when that fails. The `strip()` matters: it also drops the
      separators U+001C-U+001F, which `int()` alone refuses. */
  function ContentLength(headers: Dict<string>): (total: int)
    ensures HeaderValue(headers, "content-length").None? ==> total == 0
    ensures HeaderValue(headers, "content-length").Some? ==>
      var v := Strip(HeaderValue(headers, "content-length").value);
      && (ParseInt(v).Some? ==> total == ParseInt(v).value)
      && (ParseInt(v).None? ==> total == 0)
  {
    var h := HeaderValue(headers, "content-length");
    if h.None? then 0
    else
      match ParseInt(Strip(h.value))
      case Some(n) => n
      case None => 0
  }

  /** A length followed by a separator still counts: a header "5\x1c" gives
      5, where `int("5\x1c")` alone would fail. */
  lemma ContentLengthOfSeparator(headers: Dict<string>, c: char)
    requires '\U{1C}' <= c <= '\U{1F}'
    requires HeaderValue(headers, "content-length") == Some("5" + [c])
    ensures ContentLength(headers) == 5
  {
    StripOfSeparator(c);
    ParseIntOfFive();
  }

  lemma StripOfSeparator(c: char)
    requires '\U{1C}' <= c <= '\U{1F}'
    ensures Strip("5" + [c]) == "5"
  {
    StripOfPadded("", "5", [c]);
    assert "" + "5" + [c] == "5" + [c];
  }

  lemma ParseIntOfFive()
    ensures ParseInt("5") == Some(5)
  {
    ParseIntOfIntToString(5);
    assert IntToString(5) == "5";
  }

  // ---------------------------------------------------------------------------
  // download_file
  // ---------------------------------------------------------------------------

  /** The `(ok, msg, bytes_written)` triple of `download_file`. */
  datatype Download = Download(ok: bool, msg: string, written: int)

  /** `dst.with_suffix(dst.suffix + ".part")`: the name gains `.part`. */
  function PartPath(dst: Path): (tmp: Path)
    requires dst != []
    ensures tmp != [] && Parent(tmp) == Parent(dst) && Name(tmp) == Name(dst) + ".part"
    ensures Independent(tmp, dst)
  {
    var tmp := WithName(dst, Name(dst) + ".part");
    assert |tmp| == |dst| && tmp[|tmp| - 1] != dst[|dst| - 1] by {
      assert |Name(dst) + ".part"| != |Name(dst)|;
    }
    tmp
  }

  /** The `.part` name is what `with_suffix` gives for the old suffix with
      `.part` appended. */
  lemma PartPathIsWithSuffix(dst: Path)
    requires dst != []
    ensures PartPath(dst) == WithSuffix(dst, Suffix(Name(dst)) + ".part")
  {
    WithLongerSuffix(dst, ".part");
  }

  /** The clean-up in the `except` branch: an existing `.part` file is
      unlinked, and a failure to do so is ignored. */
  function WithoutPart(fs: Tree, locked: set<Path>, tmp: Path): Tree {
    if UnlinkError(fs, locked, tmp).None? then fs - {tmp} else fs
  }

  /** The commit step's `if dst.exists(): dst.unlink()`, failures ignored. */
  function WithoutDst(fs: Tree, locked: set<Path>, dst: Path): Tree {
    if dst in fs && UnlinkError(fs, locked, dst).None? then fs - {dst} else fs
  }

  /** The commit step from the tree `s0` holding the complete `.part` file:
      an existing `dst` is unlinked (a failure is ignored), the `.part` file is
      renamed onto `dst` (a file: its one entry moves), and when the rename
      fails the `.part` file is removed if possible. */
  function CommitOutcome(s0: Tree, locked: set<Path>, dst: Path, written: int): (Tree, Download)
    requires dst != []
  {
    var tmp := PartPath(dst);
    var s1 := WithoutDst(s0, locked, dst);
    var e := RenameError(s1, locked, tmp, dst);
    if e.Some? then
      (WithoutPart(s1, locked, tmp), Download(false, "download failed: " + e.value.msg, 0))
    else
      ((s1 - {tmp})[dst := s1[tmp]], Download(true, "ok", written))
  }

  /** What `download_file` does once the parent directory of `dst` exists in
      `base`, given the reply to its `GET`: the resulting tree, the returned
      triple, and the calls made to `progress_cb`. */
  function Outcome(base: Tree, locked: set<Path>, reply: Reply, dst: Path): (Tree, Download, seq<(int, int)>)
    requires dst != []
  {
    var tmp := PartPath(dst);
    if reply.Raised? then
      (WithoutPart(base, locked, tmp), Download(false, "download failed: " + reply.reason, 0), [])
    else
      var res := reply.response;
      if res.status != 200 then
        (base, Download(false, "bad status: " + IntToString(res.status), 0), [])
      else
        StoreOutcome(base, locked, res, dst)
  }

  /** The part of `download_file` after a 200 reply: the `.part` file is
      opened, every chunk is written and reported, and the file is committed;
      any failure on the way removes the `.part` file if possible. */
  function StoreOutcome(base: Tree, locked: set<Path>, res: Response, dst: Path): (Tree, Download, seq<(int, int)>)
    requires dst != []
  {
    var tmp := PartPath(dst);
    if WriteError(base, locked, tmp).Some? then
      (WithoutPart(base, locked, tmp), Download(false, "download failed: " + WriteError(base, locked, tmp).value.msg, 0), [])
    else
      Streamed(base, locked, res, dst)
  }

  /** Once the empty `.part` file is open in `base`: the body is streamed
      into it, every non-empty chunk reported, and the file committed. */
  function Streamed(base: Tree, locked: set<Path>, res: Response, dst: Path): (Tree, Download, seq<(int, int)>)
    requires dst != []
  {
    var tmp := PartPath(dst);
    var full := base[tmp := File(Blob(Received(res.chunks)))];
    var calls := ProgressCalls(res.chunks, ContentLength(res.headers));
    if res.streamError.Some? then
      (WithoutPart(full, locked, tmp), Download(false, "download failed: " + res.streamError.value, 0), calls)
    else
      var (s, d) := CommitOutcome(full, locked, dst, |Received(res.chunks)|);
      (s, d, calls)
  }

  /** The request succeeded with 200 and the stream ran to its end. */
  predicate Delivered(r: Reply) {
    RepliedOk(r) && r.response.streamError.None?
  }

  /** With the parent directory in place (`base`), the `.part` file can be
      opened and renamed onto `dst`: it is not a directory nor held open
      elsewhere, and an existing `dst` can be unlinked. */
  predicate Commits(base: Tree, locked: set<Path>, dst: Path)
    requires dst != []
  {
    && WriteError(base, locked, PartPath(dst)).None?
    && PartPath(dst) !in locked
    && (dst in base ==> UnlinkError(base, locked, dst).None?)
  }

  /** The commit succeeds exactly when the `.part` file is not held open
      elsewhere and any old `dst` could be unlinked; it then moves the `.part`
      file's content to `dst` and changes nothing else. */
  lemma CommitRename(s0: Tree, locked: set<Path>, dst: Path, written: int)
    requires WellFormed(s0) && dst != []
    requires IsFile(s0, PartPath(dst)) && ParentIsDir(s0, dst)
    ensures var (s, d) := CommitOutcome(s0, locked, dst, written);
      && (d.ok <==> PartPath(dst) !in locked && (dst in s0 ==> UnlinkError(s0, locked, dst).None?))
      && (d.ok ==> d.written == written && s == (s0 - {PartPath(dst)})[dst := s0[PartPath(dst)]])
  {
    var tmp := PartPath(dst);
    var s1 := WithoutDst(s0, locked, dst);
    if s1 != s0 {
      UnlinkWellFormed(s0, dst);
    }
    assert IsFile(s1, tmp) && s1[tmp] == s0[tmp];
    assert ParentIsDir(s1, dst);
    FileHasNoChildren(s1, tmp);
    assert tmp in locked ==> Pinned(s1, locked, tmp);
    if RenameError(s1, locked, tmp, dst).None? {
      assert (s1 - {tmp})[dst := s0[tmp]] == (s0 - {tmp})[dst := s0[tmp]];
    }
  }

  /** The download succeeds exactly when the body arrived whole with status
      200 and the `.part` file could be written and committed. */
  lemma OutcomeOkIff(base: Tree, locked: set<Path>, reply: Reply, dst: Path)
    requires WellFormed(base) && dst != [] && ParentIsDir(base, dst)
    ensures Outcome(base, locked, reply, dst).1.ok <==> Delivered(reply) && Commits(base, locked, dst)
  {
    var o := Outcome(base, locked, reply, dst);
    if reply.Replied? && reply.response.status == 200 {
      var res := reply.response;
      assert o == StoreOutcome(base, locked, res, dst);
      if WriteError(base, locked, PartPath(dst)).None? {
        assert o == Streamed(base, locked, res, dst);
        if res.streamError.None? {
          var body := Received(res.chunks);
          DeliveredOutcome(base, locked, reply, dst);
          WrittenCommitIff(base, locked, dst, Blob(body), |body|);
        }
      }
    }
  }

  /** Once the `.part` file is written, the commit succeeds exactly when
      `Commits` says so. */
  lemma WrittenCommitIff(base: Tree, locked: set<Path>, dst: Path, c: Content, n: int)
    requires WellFormed(base) && dst != [] && ParentIsDir(base, dst)
    requires WriteError(base, locked, PartPath(dst)).None?
    ensures CommitOutcome(base[PartPath(dst) := File(c)], locked, dst, n).1.ok <==> Commits(base, locked, dst)
  {
    var tmp := PartPath(dst);
    var full := base[tmp := File(c)];
    assert WellFormed(full) && IsFile(full, tmp) by {
      WriteWellFormed(base, locked, tmp, c);
    }
    assert ParentIsDir(full, dst) by {
      assert Parent(dst) != tmp;
    }
    CommitRename(full, locked, dst, n);
    assert dst in full ==> UnlinkError(full, locked, dst) == UnlinkError(base, locked, dst);
  }

  /** A status other than 200 returns before the `.part` file is opened:
      nothing changes and no progress is reported. */
  lemma BadStatusChangesNothing(base: Tree, locked: set<Path>, reply: Reply, dst: Path)
    requires dst != [] && reply.Replied? && reply.response.status != 200
    ensures var (s, d, calls) := Outcome(base, locked, reply, dst);
      s == base && calls == [] && !d.ok && d.written == 0
      && d.msg == "bad status: " + IntToString(reply.response.status)
  {
  }

  /** A delivered body that could be written ends in the commit step. */
  lemma DeliveredOutcome(base: Tree, locked: set<Path>, reply: Reply, dst: Path)
    requires dst != [] && Delivered(reply) && WriteError(base, locked, PartPath(dst)).None?
    ensures var res := reply.response;
      var commit := CommitOutcome(base[PartPath(dst) := File(Blob(Received(res.chunks)))], locked, dst, |Received(res.chunks)|);
      Outcome(base, locked, reply, dst) == (commit.0, commit.1, ProgressCalls(res.chunks, ContentLength(res.headers)))
  {
  }

  /** A commit that succeeds after the `.part` file was written leaves the
      written content at `dst` and no `.part` file. */
  lemma WrittenCommit(base: Tree, locked: set<Path>, dst: Path, c: Content, n: int)
    requires WellFormed(base) && dst != [] && ParentIsDir(base, dst)
    requires WriteError(base, locked, PartPath(dst)).None?
    requires CommitOutcome(base[PartPath(dst) := File(c)], locked, dst, n).1.ok
    ensures CommitOutcome(base[PartPath(dst) := File(c)], locked, dst, n)
      == ((base - {PartPath(dst)})[dst := File(c)], Download(true, "ok", n))
  {
    var tmp := PartPath(dst);
    var full := base[tmp := File(c)];
    assert WellFormed(full) && IsFile(full, tmp) by {
      WriteWellFormed(base, locked, tmp, c);
    }
    assert ParentIsDir(full, dst) by {
      assert Parent(dst) != tmp;
    }
    CommitRename(full, locked, dst, n);
    assert (full - {tmp})[dst := File(c)] == (base - {tmp})[dst := File(c)];
  }

  /** On success `dst` holds exactly the received bytes, the `.part` file is
      gone, nothing else changed, the count is the number of bytes received,
      and every non-empty chunk was reported. */
  lemma SuccessInstallsBody(base: Tree, locked: set<Path>, reply: Reply, dst: Path)
    requires WellFormed(base) && dst != [] && ParentIsDir(base, dst)
    requires Outcome(base, locked, reply, dst).1.ok
    ensures Delivered(reply)
    ensures var res := reply.response; var body := Received(res.chunks);
      Outcome(base, locked, reply, dst) == (
        (base - {PartPath(dst)})[dst := File(Blob(body))],
        Download(true, "ok", |body|),
        ProgressCalls(res.chunks, ContentLength(res.headers)))
  {
    assert Delivered(reply) && WriteError(base, locked, PartPath(dst)).None? by {
      OutcomeOkIff(base, locked, reply, dst);
    }
    DeliveredOutcome(base, locked, reply, dst);
    var body := Received(reply.response.chunks);
    WrittenCommit(base, locked, dst, Blob(body), |body|);
  }

  /** What a failed download leaves, compared with the tree `base` it started
      from once the parent directory existed: the `.part` file is gone unless
      it could not be unlinked, nothing else is new or changed, and nothing
      but the `.part` file and `dst` has disappeared. */
  ghost predicate LeftAfterFailure(s: Tree, base: Tree, locked: set<Path>, tmp: Path, dst: Path) {
    && (tmp in s ==> UnlinkError(s, locked, tmp).Some?)
    && (forall q :: q in s && q != tmp ==> q in base && s[q] == base[q])
    && (forall q :: q in base && q != tmp && q != dst ==> q in s)
  }

  lemma FailureCleansUp(mid: Tree, base: Tree, locked: set<Path>, tmp: Path, dst: Path)
    requires forall q :: q in mid && q != tmp ==> q in base && mid[q] == base[q]
    requires forall q :: q in base && q != tmp && q != dst ==> q in mid
    ensures LeftAfterFailure(WithoutPart(mid, locked, tmp), base, locked, tmp, dst)
  {
  }

  /** Any other failure reports `download failed: …` with no bytes, removes
      the `.part` file when it can, and leaves everything but `dst` as it
      was; `dst` is either untouched or, when the failure came at the final
      rename, unlinked. */
  lemma FailureCleansPart(base: Tree, locked: set<Path>, reply: Reply, dst: Path)
    requires dst != [] && !(reply.Replied? && reply.response.status != 200)
    requires !Outcome(base, locked, reply, dst).1.ok
    ensures var (s, d, calls) := Outcome(base, locked, reply, dst);
      && d.written == 0
      && StartsWith(d.msg, "download failed: ")
      && LeftAfterFailure(s, base, locked, PartPath(dst), dst)
      && (calls == [] || calls == ProgressCalls(reply.response.chunks, ContentLength(reply.response.headers)))
  {
    var tmp := PartPath(dst);
    var o := Outcome(base, locked, reply, dst);
    if reply.Raised? {
      FailureCleansUp(base, base, locked, tmp, dst);
    } else {
      var res := reply.response;
      assert o == StoreOutcome(base, locked, res, dst);
      if WriteError(base, locked, tmp).Some? {
        FailureCleansUp(base, base, locked, tmp, dst);
      } else {
        assert o == Streamed(base, locked, res, dst);
        var full := base[tmp := File(Blob(Received(res.chunks)))];
        if res.streamError.Some? {
          FailureCleansUp(full, base, locked, tmp, dst);
        } else {
          assert o.0 == WithoutPart(WithoutDst(full, locked, dst), locked, tmp);
          CommitFailureCleansUp(base, locked, dst, File(Blob(Received(res.chunks))));
        }
      }
    }
  }

  /** A failed rename, after the old `dst` may have been unlinked. */
  lemma CommitFailureCleansUp(base: Tree, locked: set<Path>, dst: Path, n: Node)
    requires dst != []
    ensures var tmp := PartPath(dst);
      LeftAfterFailure(WithoutPart(WithoutDst(base[tmp := n], locked, dst), locked, tmp), base, locked, tmp, dst)
  {
    var tmp := PartPath(dst);
    var s1 := WithoutDst(base[tmp := n], locked, dst);
    forall q | q in s1 && q != tmp ensures q in base && s1[q] == base[q] {
    }
    FailureCleansUp(s1, base, locked, tmp, dst);
  }

  /** The clean-up of the `except` branch as a step on the disk. */
  method RemovePart(disk: Disk, tmp: Path)
    requires disk.Valid()
    modifies disk
    ensures disk.Valid()
    ensures disk.fs == WithoutPart(old(disk.fs), disk.locked, tmp)
    ensures |disk.history| >= |old(disk.history)| && disk.history[..|old(disk.history)|] == old(disk.history)
  {
    if disk.Exists(tmp) {
      var _ := disk.Unlink(tmp);
    }
    assert disk.history[..|old(disk.history)|] == old(disk.history);
  }

  /** The unlink of an old `dst` as a step on the disk. */
  method RemoveOld(disk: Disk, dst: Path)
    requires disk.Valid()
    modifies disk
    ensures disk.Valid()
    ensures disk.fs == WithoutDst(old(disk.fs), disk.locked, dst)
    ensures |disk.history| >= |old(disk.history)| && disk.history[..|old(disk.history)|] == old(disk.history)
  {
    if disk.Exists(dst) {
      var _ := disk.Unlink(dst);
    }
    assert disk.history[..|old(disk.history)|] == old(disk.history);
  }

  /** The streaming loop: every non-empty chunk is appended to the open
      `.part` file and reported to the progress callback. */
  method WriteChunks(disk: Disk, tmp: Path, chunks: seq<seq<byte>>, total: int)
    returns (written: int, calls: seq<(int, int)>)
    requires disk.Valid() && IsFile(disk.fs, tmp) && disk.fs[tmp] == File(Blob([]))
    modifies disk
    ensures disk.Valid()
    ensures disk.fs == old(disk.fs)[tmp := File(Blob(Received(chunks)))]
    ensures |disk.history| >= |old(disk.history)| && disk.history[..|old(disk.history)|] == old(disk.history)
    ensures written == |Received(chunks)|
    ensures calls == ProgressCalls(chunks, total)
  {
    ghost var base, h0 := disk.fs, disk.history;
    written, calls := 0, [];
    var i := 0;
    while i < |chunks|
      invariant 0 <= i <= |chunks|
      invariant disk.Valid()
      invariant disk.fs == base[tmp := File(Blob(Received(chunks[..i])))]
      invariant |disk.history| >= |h0| && disk.history[..|h0|] == h0
      invariant written == |Received(chunks[..i])|
      invariant calls == ProgressCalls(chunks[..i], total)
    {
      var chunk := chunks[i];
      assert chunks[..i + 1][..i] == chunks[..i];
      assert Received(chunks[..i + 1]) == Received(chunks[..i]) + chunk;
      if chunk != [] {
        ghost var h, pre := disk.history, disk.fs;
        assert pre[tmp].content.bytes == Received(chunks[..i]);
        disk.Append(tmp, chunk);
        assert disk.fs == base[tmp := File(Blob(Received(chunks[..i]) + chunk))];
        assert disk.history[..|h0|] == h[..|h0|];
        written := written + |chunk|;
        calls := calls + [(written, total)];
      } else {
        assert Received(chunks[..i]) + chunk == Received(chunks[..i]);
      }
      assert disk.fs == base[tmp := File(Blob(Received(chunks[..i + 1])))];
      i := i + 1;
    }
    assert chunks[..i] == chunks;
  }

  /** The commit step and its `except` branch as steps on the disk. */
  method Commit(disk: Disk, dst: Path, written: int) returns (d: Download)
    requires disk.Valid() && dst != [] && IsFile(disk.fs, PartPath(dst))
    modifies disk
    ensures disk.Valid()
    ensures |disk.history| >= |old(disk.history)| && disk.history[..|old(disk.history)|] == old(disk.history)
    ensures (disk.fs, d) == CommitOutcome(old(disk.fs), disk.locked, dst, written)
  {
    ghost var h0 := disk.history;
    var tmp := PartPath(dst);
    RemoveOld(disk, dst);
    ghost var s1, h1 := disk.fs, disk.history;
    var e := disk.Rename(tmp, dst);
    ghost var h2 := disk.history;
    if e.None? {
      HistoryAppend(h1, disk.fs);
    }
    HistoryGrows(h0, h1, h2);
    if e.Some? {
      RemovePart(disk, tmp);
      HistoryGrows(h0, h2, disk.history);
      return Download(false, "download failed: " + e.value.msg, 0);
    }
    RenamedFile(s1, disk.locked, tmp, dst);
    d := Download(true, "ok", written);
  }

  /** `download_file(url, dst, progress_cb)` once the parent directory
      exists, given the reply to the `GET`. */
  method Fetch(disk: Disk, reply: Reply, dst: Path)
    returns (d: Download, calls: seq<(int, int)>)
    requires disk.Valid() && dst != []
    modifies disk
    ensures disk.Valid()
    ensures |disk.history| >= |old(disk.history)| && disk.history[..|old(disk.history)|] == old(disk.history)
    ensures (disk.fs, d, calls) == Outcome(old(disk.fs), disk.locked, reply, dst)
  {
    var tmp := PartPath(dst);
    if reply.Raised? {
      RemovePart(disk, tmp);
      return Download(false, "download failed: " + reply.reason, 0), [];
    }
    var res := reply.response;
    if res.status != 200 {
      return Download(false, "bad status: " + IntToString(res.status), 0), [];
    }
    d, calls := Store(disk, res, dst);
  }

  /** The download from the moment the status is known to be 200. */
  method Store(disk: Disk, res: Response, dst: Path)
    returns (d: Download, calls: seq<(int, int)>)
    requires disk.Valid() && dst != []
    modifies disk
    ensures disk.Valid()
    ensures |disk.history| >= |old(disk.history)| && disk.history[..|old(disk.history)|] == old(disk.history)
    ensures (disk.fs, d, calls) == StoreOutcome(old(disk.fs), disk.locked, res, dst)
  {
    ghost var base, h0 := disk.fs, disk.history;
    var tmp := PartPath(dst);
    var total := ContentLength(res.headers);
    var e := disk.Write(tmp, Blob([]));
    if e.Some? {
      RemovePart(disk, tmp);
      return Download(false, "download failed: " + e.value.msg, 0), [];
    }
    ghost var h1 := disk.history;
    assert h1[..|h0|] == h0;
    d, calls := Stream(disk, res, dst, total, base);
    HistoryGrows(h0, h1, disk.history);
  }

  /** The `with tmp.open("wb")` block and the commit after it, `total` being
      the announced length and `base` the tree before the `.part` file was
      opened. */
  method Stream(disk: Disk, res: Response, dst: Path, total: int, ghost base: Tree)
    returns (d: Download, calls: seq<(int, int)>)
    requires disk.Valid() && dst != [] && total == ContentLength(res.headers)
    requires disk.fs == base[PartPath(dst) := File(Blob([]))]
    modifies disk
    ensures disk.Valid()
    ensures |disk.history| >= |old(disk.history)| && disk.history[..|old(disk.history)|] == old(disk.history)
    ensures (disk.fs, d, calls) == Streamed(base, disk.locked, res, dst)
  {
    ghost var h0 := disk.history;
    var tmp := PartPath(dst);
    var written;
    written, calls := WriteChunks(disk, tmp, res.chunks, total);
    ghost var h1 := disk.history;
    assert disk.fs == base[tmp := File(Blob(Received(res.chunks)))];
    if res.streamError.Some? {
      RemovePart(disk, tmp);
      HistoryGrows(h0, h1, disk.history);
      return Download(false, "download failed: " + res.streamError.value, 0), calls;
    }
    d := Commit(disk, dst, written);
    HistoryGrows(h0, h1, disk.history);
  }

  /** `download_file(url, dst, progress_cb)` from the tree `fs`: the parent
      directory of `dst` is created first, outside the `try`, so its failure
      propagates as an exception (`Err`); otherwise the download proceeds as
      `Outcome` says. */
  function DownloadOutcome(fs: Tree, locked: set<Path>, reply: Reply, dst: Path): (Tree, Result<Download>, seq<(int, int)>)
    requires dst != []
  {
    var e := MkdirsError(fs, Parent(dst));
    if e.Some? then (fs, Err(e.value), [])
    else
      var (s, d, calls) := Outcome(WithDirs(fs, Parent(dst)), locked, reply, dst);
      (s, Ok(d), calls)
  }

  /** Once `mkdir(parents=True)` succeeded, the parent of `dst` is a directory. */
  lemma MkdirsMakesParent(fs: Tree, dst: Path)
    requires dst != [] && MkdirsError(fs, Parent(dst)).None?
    ensures ParentIsDir(WithDirs(fs, Parent(dst)), dst)
  {
    if |dst| > 1 {
      WithDirsMakesDir(fs, Parent(dst));
    }
  }

  /** The whole download, parent directory included, reports success exactly
      when the directory could be created, the body arrived whole with status
      200, and the `.part` file could be written and committed there. */
  lemma DownloadSucceedsIff(fs: Tree, locked: set<Path>, reply: Reply, dst: Path)
    requires WellFormed(fs) && dst != []
    ensures var r := DownloadOutcome(fs, locked, reply, dst).1;
      (r.Ok? && r.value.ok) <==>
        && MkdirsError(fs, Parent(dst)).None?
        && Delivered(reply)
        && Commits(WithDirs(fs, Parent(dst)), locked, dst)
  {
    if MkdirsError(fs, Parent(dst)).None? {
      WithDirsWellFormed(fs, Parent(dst));
      MkdirsMakesParent(fs, dst);
      OutcomeOkIff(WithDirs(fs, Parent(dst)), locked, reply, dst);
    }
  }

  lemma KeepsRemoving(fs: Tree, p: Path, r: set<Path>)
    requires p in r
    ensures Keeps(fs, fs - {p}, r)
  {
    forall q | q in fs && Away(q, r) ensures q in fs - {p} && (fs - {p})[q] == fs[q] {
      assert !(p <= q);
    }
  }

  lemma KeepsWriting(fs: Tree, p: Path, n: Node, r: set<Path>)
    requires p in r
    ensures Keeps(fs, fs[p := n], r)
  {
    forall q | q in fs && Away(q, r) ensures q in fs[p := n] && fs[p := n][q] == fs[q] {
      assert !(p <= q);
    }
  }

  /** A step that either removes `p` or changes nothing keeps everything
      away from roots that include `p`. */
  lemma KeepsMaybeRemoving(fs: Tree, drop: bool, p: Path, r: set<Path>)
    requires p in r
    ensures Keeps(fs, if drop then fs - {p} else fs, r)
  {
    if drop {
      KeepsRemoving(fs, p, r);
    }
  }

  lemma CommitKeeps(s0: Tree, locked: set<Path>, dst: Path, written: int)
    requires dst != []
    ensures Keeps(s0, CommitOutcome(s0, locked, dst, written).0, {dst, PartPath(dst)})
  {
    var tmp := PartPath(dst);
    var r := {dst, tmp};
    var s1 := WithoutDst(s0, locked, dst);
    KeepsMaybeRemoving(s0, dst in s0 && UnlinkError(s0, locked, dst).None?, dst, r);
    if RenameError(s1, locked, tmp, dst).Some? {
      var s3 := WithoutPart(s1, locked, tmp);
      KeepsMaybeRemoving(s1, UnlinkError(s1, locked, tmp).None?, tmp, r);
      KeepsTrans(s0, s1, s3, r, r, r);
    } else {
      var s2 := s1 - {tmp};
      KeepsRemoving(s1, tmp, r);
      KeepsWriting(s2, dst, s1[tmp], r);
      KeepsTrans(s0, s1, s2, r, r, r);
      KeepsTrans(s0, s2, s2[dst := s1[tmp]], r, r, r);
    }
  }

  lemma OutcomeKeeps(base: Tree, locked: set<Path>, reply: Reply, dst: Path)
    requires dst != []
    ensures Keeps(base, Outcome(base, locked, reply, dst).0, {dst, PartPath(dst)})
  {
    var tmp := PartPath(dst);
    var r := {dst, tmp};
    KeepsRemoving(base, tmp, r);
    if reply.Replied? && reply.response.status == 200 && WriteError(base, locked, tmp).None? {
      var full := base[tmp := File(Blob(Received(reply.response.chunks)))];
      KeepsWriting(base, tmp, File(Blob(Received(reply.response.chunks))), r);
      KeepsRemoving(full, tmp, r);
      CommitKeeps(full, locked, dst, |Received(reply.response.chunks)|);
      if reply.response.streamError.Some? {
        KeepsTrans(base, full, WithoutPart(full, locked, tmp), r, r, r);
      } else {
        KeepsTrans(base, full, CommitOutcome(full, locked, dst, |Received(reply.response.chunks)|).0, r, r, r);
      }
    }
  }

  /** A download touches nothing but `dst` and its `.part` sibling (besides
      creating missing parent directories, which changes no existing entry). */
  lemma DownloadKeeps(fs: Tree, locked: set<Path>, reply: Reply, dst: Path)
    requires dst != []
    ensures Keeps(fs, DownloadOutcome(fs, locked, reply, dst).0, {dst, PartPath(dst)})
  {
    if MkdirsError(fs, Parent(dst)).None? {
      var base := WithDirs(fs, Parent(dst));
      KeepsWithDirs(fs, Parent(dst));
      OutcomeKeeps(base, locked, reply, dst);
      KeepsTrans(fs, base, Outcome(base, locked, reply, dst).0, {}, {dst, PartPath(dst)}, {dst, PartPath(dst)});
    }
  }

  /** `download_file(url, dst, progress_cb)`. Besides the returned triple, the
      method hands back the calls made to `progress_cb`; the callback cannot
      affect the download since its exceptions are swallowed. */
  method DownloadFile(disk: Disk, net: Network, url: string, dst: Path)
    returns (r: Result<Download>, calls: seq<(int, int)>)
    requires disk.Valid() && dst != []
    modifies disk
    ensures disk.Valid()
    ensures |disk.history| >= |old(disk.history)| && disk.history[..|old(disk.history)|] == old(disk.history)
    ensures (disk.fs, r, calls) == DownloadOutcome(old(disk.fs), disk.locked, net.get(url), dst)
  {
    ghost var h0 := disk.history;
    var e := disk.Mkdirs(Parent(dst));
    if e.Some? {
      return Err(e.value), [];
    }
    ghost var h1 := disk.history;
    assert h1[..|h0|] == h0;
    var d;
    d, calls := Fetch(disk, net.get(url), dst);
    assert disk.history[..|h1|] == h1;
    assert disk.history[..|h0|] == h0;
    r := Ok(d);
  }
}
