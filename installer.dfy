/** Unpacking a downloaded archive into a staging directory, swapping the
    staging directory into place through a `__bak` rename, and best-effort
    cleanup (launcher/core/installer.py). */
module Installer {
  import opened Common
  import opened FileSystem

  /** How `zipfile` reads an archive: the relative tree it holds, with the
      directories its member names imply, or `None` for bytes that are not a
      zip archive. */
  type Unzip = seq<byte> -> Option<Tree>

  /** `a <= b <= c` implies `a <= c` for path prefixes. */
  lemma PrefixTransitive(a: Path, b: Path, c: Path)
    ensures a <= b && b <= c ==> a <= c
  {
    if a <= b && b <= c {
      assert c[..|a|] == b[..|a|];
    }
  }

  // ---------------------------------------------------------------------------
  // unzip_to_staging
  // ---------------------------------------------------------------------------

  /** The archive stored at `zip`, if it is a file `zipfile` can open. */
  function ArchiveOf(fs: Tree, zip: Path, unzip: Unzip): Option<Tree> {
    if IsFile(fs, zip) && fs[zip].content.Blob? then unzip(fs[zip].content.bytes) else None
  }

  /** The tree after `rmtree(staging)` when staging exists. */
  function Cleared(fs: Tree, locked: set<Path>, staging: Path): Tree {
    if staging in fs then RmTreeResult(fs, locked, staging) else fs
  }

  /** The tree left by a successful `unzip_to_staging`: the old staging
      directory removed, the directory created again, the archive extracted
      into it. */
  function Unpacked(fs: Tree, locked: set<Path>, staging: Path, archive: Tree): Tree {
    Extracted(WithDirs(Cleared(fs, locked, staging), staging), staging, archive)
  }

  /** Clearing a staging directory that holds no open file leaves nothing at
      or below it and keeps everything else. */
  lemma ClearedContents(fs: Tree, locked: set<Path>, staging: Path)
    requires WellFormed(fs) && staging != [] && !IsFile(fs, staging) && !Pinned(fs, locked, staging)
    ensures forall q :: q in Cleared(fs, locked, staging) ==> !(staging <= q)
    ensures forall q :: q in fs && !(staging <= q) ==>
      q in Cleared(fs, locked, staging) && Cleared(fs, locked, staging)[q] == fs[q]
  {
    var c := Cleared(fs, locked, staging);
    forall q | q in c ensures !(staging <= q) {
      if staging in fs {
        if Pinned(fs, locked, q) {
          var l :| l in locked && l in fs && q <= l;
          PrefixTransitive(staging, q, l);
        }
      } else {
        AbsentNotAncestor(fs, staging, q);
      }
    }
  }

  /** Re-creating the emptied staging directory puts just the directory there. */
  lemma RecreatedStaging(c: Tree, staging: Path)
    requires staging != [] && forall q :: q in c ==> !(staging <= q)
    ensures staging in WithDirs(c, staging) && WithDirs(c, staging)[staging] == Dir
    ensures forall q :: q in WithDirs(c, staging) && staging <= q ==> q == staging
    ensures forall q :: q in c ==> q in WithDirs(c, staging) && WithDirs(c, staging)[q] == c[q]
  {
    assert staging == staging[..|staging|];
    forall q | q in WithDirs(c, staging) && staging <= q ensures q == staging {
      if q !in c {
        var k :| 1 <= k <= |staging| && staging[..k] == q;
      }
    }
  }

  /** Extracting into a directory with nothing below it leaves exactly the
      archive below it. */
  lemma ExtractedIntoEmpty(wd: Tree, staging: Path, archive: Tree)
    requires WellFormed(archive)
    requires staging in wd && wd[staging] == Dir
    requires forall q :: q in wd && staging <= q ==> q == staging
    ensures Subtree(Extracted(wd, staging, archive), staging) == archive[[] := Dir]
  {
    var n := Extracted(wd, staging, archive);
    assert [] !in archive;
    forall r ensures (r in Subtree(n, staging) <==> r in archive[[] := Dir])
      && (r in archive[[] := Dir] ==> Subtree(n, staging)[r] == archive[[] := Dir][r])
    {
      SubtreeAt(n, staging, r);
      RootedAt(staging, archive, staging + r);
      assert (staging + r)[|staging|..] == r;
      assert r == [] ==> staging + r == staging;
    }
  }

  /** After a successful unpack the staging directory holds exactly the
      archive's entries, provided no file in the old staging directory was held
      open. */
  lemma UnpackedContents(fs: Tree, locked: set<Path>, staging: Path, archive: Tree)
    requires WellFormed(fs) && WellFormed(archive) && staging != []
    requires !IsFile(fs, staging) && !Pinned(fs, locked, staging)
    ensures Subtree(Unpacked(fs, locked, staging, archive), staging) == archive[[] := Dir]
  {
    var c := Cleared(fs, locked, staging);
    ClearedContents(fs, locked, staging);
    RecreatedStaging(c, staging);
    var wd := WithDirs(c, staging);
    ExtractedIntoEmpty(wd, staging, archive);
  }

  /** The unpacking half of `unzip_to_staging`, once the old staging directory
      is gone: re-create the directory, open the archive, extract it. */
  method FillStaging(disk: Disk, zip: Path, staging: Path, unzip: Unzip) returns (ok: bool, msg: string)
    requires disk.Valid()
    modifies disk
    ensures disk.Valid()
    ensures |disk.history| >= |old(disk.history)| && disk.history[..|old(disk.history)|] == old(disk.history)
    ensures ok ==> msg == "ok" && MkdirsError(old(disk.fs), staging).None?
    ensures !ok ==> StartsWith(msg, "unzip failed: ")
    ensures ok ==> (ArchiveOf(WithDirs(old(disk.fs), staging), zip, unzip).Some?
      && WellFormed(ArchiveOf(WithDirs(old(disk.fs), staging), zip, unzip).value)
      && disk.fs == Extracted(WithDirs(old(disk.fs), staging), staging,
                              ArchiveOf(WithDirs(old(disk.fs), staging), zip, unzip).value))
    ensures Keeps(old(disk.fs), disk.fs, {staging})
  {
    ghost var o, h0 := disk.fs, disk.history;
    var e := disk.Mkdirs(staging);
    if e.Some? {
      return false, "unzip failed: " + e.value.msg;
    }
    ghost var wd, h1 := disk.fs, disk.history;
    HistoryAppend(h0, wd);
    var read := disk.Read(zip);
    if read.Err? {
      return false, "unzip failed: " + read.error.msg;
    }
    var archive: Option<Tree> := None;
    if read.value.Blob? {
      archive := unzip(read.value.bytes);
    }
    if archive.None? {
      return false, "unzip failed: File is not a zip file";
    }
    assert ArchiveOf(wd, zip, unzip) == archive;
    e := disk.ExtractAll(staging, archive.value);
    if e.Some? {
      KeepsTrans(o, wd, disk.fs, {}, {staging}, {staging});
      return false, "unzip failed: " + e.value.msg;
    }
    HistoryAppend(h1, disk.fs);
    HistoryGrows(h0, h1, disk.history);
    KeepsTrans(o, wd, disk.fs, {}, {staging}, {staging});
    return true, "ok";
  }

  /** `rmtree(staging)` when the staging directory exists. */
  method ClearStaging(disk: Disk, staging: Path)
    requires disk.Valid()
    modifies disk
    ensures disk.Valid()
    ensures |disk.history| >= |old(disk.history)| && disk.history[..|old(disk.history)|] == old(disk.history)
    ensures disk.fs == Cleared(old(disk.fs), disk.locked, staging)
    ensures Keeps(old(disk.fs), disk.fs, {staging})
  {
    if disk.Exists(staging) {
      disk.RmTree(staging);
    }
  }

  /** `unzip_to_staging(zip, staging)`: a missing archive is reported with no
      change; otherwise the staging directory is emptied, re-created, and the
      archive extracted into it, any failure being reported as `unzip failed`. */
  method UnzipToStaging(disk: Disk, zip: Path, staging: Path, unzip: Unzip) returns (ok: bool, msg: string)
    requires disk.Valid()
    modifies disk
    ensures disk.Valid()
    ensures |disk.history| >= |old(disk.history)| && disk.history[..|old(disk.history)|] == old(disk.history)
    ensures zip !in old(disk.fs) ==>
      !ok && msg == "zip not found: " + PathText(zip) && disk.fs == old(disk.fs) && disk.history == old(disk.history)
    ensures ok ==> msg == "ok"
    ensures !ok && zip in old(disk.fs) ==> StartsWith(msg, "unzip failed: ")
    ensures ok && !(staging <= zip) ==> (ArchiveOf(old(disk.fs), zip, unzip).Some?
      && disk.fs == Unpacked(old(disk.fs), disk.locked, staging, ArchiveOf(old(disk.fs), zip, unzip).value))
    ensures ok && !(staging <= zip) && !Pinned(old(disk.fs), disk.locked, staging) ==>
      Subtree(disk.fs, staging) == ArchiveOf(old(disk.fs), zip, unzip).value[[] := Dir]
    ensures Keeps(old(disk.fs), disk.fs, {staging})
  {
    if !disk.Exists(zip) {
      return false, "zip not found: " + PathText(zip);
    }
    ghost var o, h0 := disk.fs, disk.history;
    ClearStaging(disk, staging);
    ghost var cleared, h1 := disk.fs, disk.history;
    ok, msg := FillStaging(disk, zip, staging, unzip);
    HistoryGrows(h0, h1, disk.history);
    KeepsTrans(o, cleared, disk.fs, {staging}, {staging}, {staging});
    if ok && !(staging <= zip) {
      UnzipOutcome(o, cleared, disk.fs, disk.locked, zip, staging, unzip);
    }
  }

  /** What a successful fill of the cleared staging directory amounts to,
      in terms of the tree before the clear. */
  lemma UnzipOutcome(o: Tree, cleared: Tree, n: Tree, locked: set<Path>, zip: Path, staging: Path, unzip: Unzip)
    requires WellFormed(o) && zip in o && !(staging <= zip)
    requires cleared == Cleared(o, locked, staging) && Keeps(o, cleared, {staging})
    requires MkdirsError(cleared, staging).None?
    requires ArchiveOf(WithDirs(cleared, staging), zip, unzip).Some?
    requires WellFormed(ArchiveOf(WithDirs(cleared, staging), zip, unzip).value)
    requires n == Extracted(WithDirs(cleared, staging), staging, ArchiveOf(WithDirs(cleared, staging), zip, unzip).value)
    ensures ArchiveOf(o, zip, unzip).Some? && n == Unpacked(o, locked, staging, ArchiveOf(o, zip, unzip).value)
    ensures !Pinned(o, locked, staging) ==> Subtree(n, staging) == ArchiveOf(o, zip, unzip).value[[] := Dir]
  {
    assert Away(zip, {staging});
    assert zip in cleared && cleared[zip] == o[zip];
    assert WithDirs(cleared, staging)[zip] == o[zip];
    assert ArchiveOf(o, zip, unzip) == ArchiveOf(WithDirs(cleared, staging), zip, unzip);
    if !Pinned(o, locked, staging) {
      assert !IsFile(o, staging) by {
        assert staging[..|staging|] == staging;
      }
      UnpackedContents(o, locked, staging, ArchiveOf(o, zip, unzip).value);
    }
  }

  // ---------------------------------------------------------------------------
  // promote_staging
  // ---------------------------------------------------------------------------

  /** `target.with_name(target.name + "__bak")`. */
  function Backup(target: Path): (b: Path)
    requires target != []
    ensures b != [] && Parent(b) == Parent(target) && Independent(b, target)
  {
    var b := WithName(target, Name(target) + "__bak");
    assert |b| == |target| && b[|b| - 1] != target[|target| - 1];
    b
  }

  /** The guard under which the swap is meaningful: staging, target and the
      backup are three separate places. */
  predicate Separate(staging: Path, target: Path) {
    target != [] && Independent(staging, target) && Independent(staging, Backup(target))
  }

  /** In state `t`, what sits at `target` is its original content, or the
      content staging held, or nothing while the original waits at the backup. */
  ghost predicate OldOrNewOrAside(t: Tree, o: Tree, staging: Path, target: Path)
    requires target != []
  {
    || Subtree(t, target) == Subtree(o, target)
    || Subtree(t, target) == Subtree(o, staging)
    || (target !in t && Subtree(t, Backup(target)) == Subtree(o, target))
  }

  /** Every state of `h` from index `from` on satisfies `OldOrNewOrAside`. */
  ghost predicate SwapSafe(h: seq<Tree>, from: nat, o: Tree, staging: Path, target: Path)
    requires target != []
  {
    forall i :: from <= i < |h| ==> OldOrNewOrAside(h[i], o, staging, target)
  }

  lemma SwapSafeExtend(h: seq<Tree>, from: nat, o: Tree, staging: Path, target: Path, t: Tree)
    requires target != [] && from <= |h|
    requires SwapSafe(h, from, o, staging, target) && OldOrNewOrAside(t, o, staging, target)
    ensures SwapSafe(h + [t], from, o, staging, target)
  {
    forall i | from <= i < |h| + 1 ensures OldOrNewOrAside((h + [t])[i], o, staging, target) {
      if i < |h| {
        assert (h + [t])[i] == h[i];
      }
    }
  }

  /** Moving the target aside keeps staging as it was and puts the original
      target, whole, at the backup. */
  lemma MovedAside(s: Tree, o: Tree, locked: set<Path>, staging: Path, target: Path)
    requires WellFormed(s) && Separate(staging, target)
    requires RenameError(s, locked, target, Backup(target)).None?
    requires Subtree(s, target) == Subtree(o, target) && Subtree(s, staging) == Subtree(o, staging)
    ensures var n := Renamed(s, target, Backup(target));
      && target !in n
      && Subtree(n, Backup(target)) == Subtree(o, target)
      && Subtree(n, staging) == Subtree(o, staging)
      && OldOrNewOrAside(n, o, staging, target)
  {
    RenamedDropsSrc(s, locked, target, Backup(target));
    SubtreeOfRenamedDst(s, locked, target, Backup(target));
    SubtreeOfRenamedOther(s, target, Backup(target), staging);
  }

  /** Renaming staging onto the absent target installs the staging content. */
  lemma StagingInstalled(s: Tree, o: Tree, locked: set<Path>, staging: Path, target: Path)
    requires WellFormed(s) && Separate(staging, target)
    requires RenameError(s, locked, staging, target).None?
    requires Subtree(s, staging) == Subtree(o, staging)
    ensures var n := Renamed(s, staging, target);
      && Subtree(n, target) == Subtree(o, staging)
      && (forall q :: staging <= q ==> q !in n)
      && OldOrNewOrAside(n, o, staging, target)
  {
    RenamedDropsSrc(s, locked, staging, target);
    SubtreeOfRenamedDst(s, locked, staging, target);
  }

  /** Joining two stretches of history that are each safe. */
  lemma SwapSafeJoin(h: seq<Tree>, k: nat, from: nat, o: Tree, staging: Path, target: Path)
    requires target != [] && from <= k <= |h|
    requires SwapSafe(h[..k], from, o, staging, target) && SwapSafe(h, k, o, staging, target)
    ensures SwapSafe(h, from, o, staging, target)
  {
    forall i | from <= i < k ensures OldOrNewOrAside(h[i], o, staging, target) {
      assert h[..k][i] == h[i];
    }
  }

  /** Safety judged against a state with the same target and staging content. */
  lemma SwapSafeTransfer(h: seq<Tree>, from: nat, o1: Tree, o2: Tree, staging: Path, target: Path)
    requires target != [] && SwapSafe(h, from, o1, staging, target)
    requires Subtree(o1, target) == Subtree(o2, target) && Subtree(o1, staging) == Subtree(o2, staging)
    ensures SwapSafe(h, from, o2, staging, target)
  {
  }

  /** Every state of `h` from index `from` on holds `m` at and below `p`. */
  ghost predicate AllAt(h: seq<Tree>, from: nat, p: Path, m: Tree) {
    forall i :: from <= i < |h| ==> Subtree(h[i], p) == m
  }

  lemma AllAtExtend(h: seq<Tree>, from: nat, p: Path, m: Tree, t: Tree)
    requires from <= |h| && AllAt(h, from, p, m) && Subtree(t, p) == m
    ensures AllAt(h + [t], from, p, m)
  {
    forall i | from <= i < |h| + 1 ensures Subtree((h + [t])[i], p) == m {
      if i < |h| {
        assert (h + [t])[i] == h[i];
      }
    }
  }

  /** Deleting the backup leaves the target alone and leaves below the
      backup only files held open elsewhere, the directories holding them, or
      a backup that is a plain file (which `rmtree` does not delete). */
  lemma BackupRemoved(s: Tree, locked: set<Path>, staging: Path, target: Path)
    requires WellFormed(s) && Separate(staging, target)
    requires forall q :: staging <= q ==> q !in s
    ensures var n := RmTreeResult(s, locked, Backup(target));
      && Subtree(n, target) == Subtree(s, target)
      && (forall q :: staging <= q ==> q !in n)
      && (forall q :: q in n && Backup(target) <= q ==>
            Pinned(n, locked, q) || (q == Backup(target) && IsFile(n, q)))
  {
    SubtreeOfRmTree(s, locked, Backup(target), target);
    RmTreeRemnants(s, locked, Backup(target));
  }

  /** The first half of the swap: delete a stale backup, then move an existing
      target to the backup. */
  method MoveTargetAside(disk: Disk, staging: Path, target: Path) returns (e: Option<Exc>)
    requires disk.Valid() && target != []
    modifies disk
    ensures disk.Valid()
    ensures |disk.history| >= |old(disk.history)| && disk.history[..|old(disk.history)|] == old(disk.history)
    ensures Separate(staging, target) ==>
      && SwapSafe(disk.history, |old(disk.history)|, old(disk.fs), staging, target)
      && Subtree(disk.fs, staging) == Subtree(old(disk.fs), staging)
    ensures e.None? ==> target !in disk.fs
    ensures e.None? && Separate(staging, target) && target in old(disk.fs) ==>
      Subtree(disk.fs, Backup(target)) == Subtree(old(disk.fs), target)
    ensures e.Some? ==> target in disk.fs
    ensures e.Some? && Separate(staging, target) ==>
      Subtree(disk.fs, target) == Subtree(old(disk.fs), target)
    ensures Keeps(old(disk.fs), disk.fs, {target, Backup(target)})
  {
    ghost var o, h0 := disk.fs, disk.history;
    ghost var sep := Separate(staging, target);
    var backup := Backup(target);
    ghost var roots := {target, backup};
    if disk.Exists(backup) {
      ghost var s1, h1 := disk.fs, disk.history;
      disk.RmTree(backup);
      KeepsTrans(o, s1, disk.fs, {}, {backup}, roots);
      HistoryAppend(h1, disk.fs);
      if sep {
        SubtreeOfRmTree(s1, disk.locked, backup, target);
        SubtreeOfRmTree(s1, disk.locked, backup, staging);
        SwapSafeExtend(h1, |h0|, o, staging, target, disk.fs);
      }
    }
    ghost var s2, h2 := disk.fs, disk.history;
    assert Keeps(o, s2, roots);
    assert |h2| >= |h0| && h2[..|h0|] == h0;
    assert sep ==>
      && Subtree(s2, target) == Subtree(o, target)
      && Subtree(s2, staging) == Subtree(o, staging)
      && SwapSafe(h2, |h0|, o, staging, target);
    if disk.Exists(target) {
      e := disk.Rename(target, backup);
      KeepsTrans(o, s2, disk.fs, roots, {target, backup}, roots);
      if e.Some? {
        return;
      }
      HistoryAppend(h2, disk.fs);
      HistoryGrows(h0, h2, disk.history);
      RenamedDropsSrc(s2, disk.locked, target, backup);
      assert target <= target;
      if sep {
        MovedAside(s2, o, disk.locked, staging, target);
        SwapSafeExtend(h2, |h0|, o, staging, target, disk.fs);
      }
    } else {
      e := None;
    }
  }

  /** The second half of the swap: rename staging to the (now absent) target,
      then delete the backup. */
  method InstallStaging(disk: Disk, staging: Path, target: Path) returns (e: Option<Exc>)
    requires disk.Valid() && target != []
    modifies disk
    ensures disk.Valid()
    ensures |disk.history| >= |old(disk.history)| && disk.history[..|old(disk.history)|] == old(disk.history)
    ensures e.Some? ==> disk.fs == old(disk.fs) && disk.history == old(disk.history)
    ensures e.None? && Separate(staging, target) ==>
      && AllAt(disk.history, |old(disk.history)|, target, Subtree(old(disk.fs), staging))
      && Subtree(disk.fs, target) == Subtree(old(disk.fs), staging)
      && (forall q :: staging <= q ==> q !in disk.fs)
      && (forall q :: q in disk.fs && Backup(target) <= q ==>
            Pinned(disk.fs, disk.locked, q) || (q == Backup(target) && IsFile(disk.fs, q)))
    ensures Keeps(old(disk.fs), disk.fs, {staging, target, Backup(target)})
  {
    ghost var o, h0 := disk.fs, disk.history;
    ghost var sep := Separate(staging, target);
    ghost var roots := {staging, target, Backup(target)};
    e := disk.Rename(staging, target);
    if e.Some? {
      return;
    }
    ghost var s1, h1 := disk.fs, disk.history;
    KeepsTrans(o, o, s1, {}, {staging, target}, roots);
    HistoryAppend(h0, s1);
    if sep {
      StagingInstalled(o, o, disk.locked, staging, target);
      AllAtExtend(h0, |h0|, target, Subtree(o, staging), s1);
    }
    var backup := Backup(target);
    if disk.Exists(backup) {
      disk.RmTree(backup);
      KeepsTrans(o, s1, disk.fs, roots, {backup}, roots);
      HistoryAppend(h1, disk.fs);
      HistoryGrows(h0, h1, disk.history);
      if sep {
        BackupRemoved(s1, disk.locked, staging, target);
        AllAtExtend(h1, |h0|, target, Subtree(o, staging), disk.fs);
      }
    } else if sep {
      forall q | q in disk.fs ensures !(backup <= q) {
        AbsentNotAncestor(disk.fs, backup, q);
      }
    }
  }

  /** What `AllAt` at the staging content means for the swap. */
  lemma InstalledIsSwapSafe(h: seq<Tree>, from: nat, o: Tree, staging: Path, target: Path)
    requires target != [] && AllAt(h, from, target, Subtree(o, staging))
    ensures SwapSafe(h, from, o, staging, target)
  {
  }

  /** `promote_staging(staging, target)`: move any existing target aside to
      `<target>__bak` (after deleting a stale one), rename staging to target,
      then delete the backup. There is no restore: if the second rename fails
      the target stays absent and the original waits in the backup. */
  method PromoteStaging(disk: Disk, staging: Path, target: Path) returns (ok: bool, msg: string)
    requires disk.Valid()
    modifies disk
    ensures disk.Valid()
    ensures |disk.history| >= |old(disk.history)| && disk.history[..|old(disk.history)|] == old(disk.history)
    ensures staging !in old(disk.fs) ==>
      !ok && msg == "staging not found: " + PathText(staging)
      && disk.fs == old(disk.fs) && disk.history == old(disk.history)
    ensures ok ==> msg == "ok" && target != []
    ensures !ok && staging in old(disk.fs) ==> StartsWith(msg, "promote failed: ")
    ensures Separate(staging, target) ==>
      SwapSafe(disk.history, |old(disk.history)|, old(disk.fs), staging, target)
    ensures ok && Separate(staging, target) ==>
      && Subtree(disk.fs, target) == Subtree(old(disk.fs), staging)
      && (forall q :: staging <= q ==> q !in disk.fs)
      && (forall q :: q in disk.fs && Backup(target) <= q ==>
            Pinned(disk.fs, disk.locked, q) || (q == Backup(target) && IsFile(disk.fs, q)))
    ensures !ok && Separate(staging, target) && target in disk.fs ==>
      Subtree(disk.fs, target) == Subtree(old(disk.fs), target)
    ensures !ok && Separate(staging, target) && target in old(disk.fs) && target !in disk.fs ==>
      Subtree(disk.fs, Backup(target)) == Subtree(old(disk.fs), target)
    ensures target == [] ==> disk.fs == old(disk.fs)
    ensures target != [] ==> Keeps(old(disk.fs), disk.fs, {staging, target, Backup(target)})
  {
    if !disk.Exists(staging) {
      return false, "staging not found: " + PathText(staging);
    }
    ghost var o, h0 := disk.fs, disk.history;
    ghost var sep := Separate(staging, target);
    if target == [] {
      return false, "promote failed: WindowsPath('" + PathText(target) + "') has an empty name";
    }
    var e := disk.Mkdirs(Parent(target));
    if e.Some? {
      return false, "promote failed: " + e.value.msg;
    }
    ghost var s1, h1 := disk.fs, disk.history;
    ghost var roots := {staging, target, Backup(target)};
    assert h1[..|h0|] == h0;
    assert target in o ==> target in s1;
    if sep {
      assert Parent(target) <= target;
      PrefixTransitive(staging, Parent(target), target);
      SubtreeOfWithDirs(o, Parent(target), target);
      SubtreeOfWithDirs(o, Parent(target), staging);
      SwapSafeExtend(h0, |h0|, o, staging, target, s1);
    }
    e := Swap(disk, staging, target);
    KeepsTrans(o, s1, disk.fs, {}, roots, roots);
    HistoryGrows(h0, h1, disk.history);
    if sep {
      SwapSafeTransfer(disk.history, |h1|, s1, o, staging, target);
      assert disk.history[..|h1|] == h1;
      SwapSafeJoin(disk.history, |h1|, |h0|, o, staging, target);
    }
    if e.Some? {
      return false, "promote failed: " + e.value.msg;
    }
    return true, "ok";
  }

  /** The two renames of `promote_staging` once the parent of the target
      exists: the target aside, then staging onto the target. */
  method Swap(disk: Disk, staging: Path, target: Path) returns (e: Option<Exc>)
    requires disk.Valid() && target != []
    modifies disk
    ensures disk.Valid()
    ensures |disk.history| >= |old(disk.history)| && disk.history[..|old(disk.history)|] == old(disk.history)
    ensures Separate(staging, target) ==>
      SwapSafe(disk.history, |old(disk.history)|, old(disk.fs), staging, target)
    ensures e.None? && Separate(staging, target) ==>
      && Subtree(disk.fs, target) == Subtree(old(disk.fs), staging)
      && (forall q :: staging <= q ==> q !in disk.fs)
      && (forall q :: q in disk.fs && Backup(target) <= q ==>
            Pinned(disk.fs, disk.locked, q) || (q == Backup(target) && IsFile(disk.fs, q)))
    ensures e.Some? && Separate(staging, target) && target in disk.fs ==>
      Subtree(disk.fs, target) == Subtree(old(disk.fs), target)
    ensures e.Some? && Separate(staging, target) && target in old(disk.fs) && target !in disk.fs ==>
      Subtree(disk.fs, Backup(target)) == Subtree(old(disk.fs), target)
    ensures Keeps(old(disk.fs), disk.fs, {staging, target, Backup(target)})
  {
    ghost var o, h0 := disk.fs, disk.history;
    ghost var roots := {staging, target, Backup(target)};
    ghost var sep := Separate(staging, target);
    e := MoveTargetAside(disk, staging, target);
    ghost var s2, h2 := disk.fs, disk.history;
    KeepsTrans(o, o, s2, {}, {target, Backup(target)}, roots);
    if e.Some? {
      return;
    }
    e := InstallStaging(disk, staging, target);
    KeepsTrans(o, s2, disk.fs, roots, roots, roots);
    if e.Some? {
      return;
    }
    HistoryGrows(h0, h2, disk.history);
    if sep {
      assert Subtree(s2, staging) == Subtree(o, staging);
      InstalledIsSwapSafe(disk.history, |h2|, o, staging, target);
      assert disk.history[..|h2|] == h2;
      SwapSafeJoin(disk.history, |h2|, |h0|, o, staging, target);
    }
  }

  // ---------------------------------------------------------------------------
  // cleanup_paths
  // ---------------------------------------------------------------------------

  /** One step of `cleanup_paths`: an existing file is unlinked (a failure is
      swallowed), an existing directory removed with `rmtree(ignore_errors=True)`,
      anything else ignored. */
  function CleanOne(fs: Tree, locked: set<Path>, p: Path): Tree {
    if IsFile(fs, p) then (if UnlinkError(fs, locked, p).None? then fs - {p} else fs)
    else if IsDir(fs, p) then RmTreeResult(fs, locked, p)
    else fs
  }

  /** `cleanup_paths(*ps)`: each path in turn. */
  function Cleaned(fs: Tree, locked: set<Path>, ps: seq<Path>): Tree
    decreases |ps|
  {
    if ps == [] then fs else Cleaned(CleanOne(fs, locked, ps[0]), locked, ps[1..])
  }

  /** Cleanup only removes entries; it never creates or changes one. */
  lemma {:induction false} CleanedShrinks(fs: Tree, locked: set<Path>, ps: seq<Path>)
    ensures forall q :: q in Cleaned(fs, locked, ps) ==> q in fs && Cleaned(fs, locked, ps)[q] == fs[q]
    decreases |ps|
  {
    if ps != [] {
      CleanedShrinks(CleanOne(fs, locked, ps[0]), locked, ps[1..]);
    }
  }

  /** Every target that holds no file open elsewhere is gone afterwards. */
  lemma {:induction false} CleanedRemoves(fs: Tree, locked: set<Path>, ps: seq<Path>, i: nat)
    requires i < |ps| && !Pinned(fs, locked, ps[i])
    ensures ps[i] !in Cleaned(fs, locked, ps)
    decreases |ps|
  {
    var c := CleanOne(fs, locked, ps[0]);
    CleanedShrinks(c, locked, ps[1..]);
    if i == 0 {
      assert ps[0] !in c;
    } else {
      assert ps[1..][i - 1] == ps[i];
      assert !Pinned(c, locked, ps[i]);
      CleanedRemoves(c, locked, ps[1..], i - 1);
    }
  }

  /** Entries below none of the targets are untouched. */
  lemma {:induction false} CleanedKeepsOthers(fs: Tree, locked: set<Path>, ps: seq<Path>, q: Path)
    requires q in fs && forall j :: 0 <= j < |ps| ==> !(ps[j] <= q)
    ensures q in Cleaned(fs, locked, ps) && Cleaned(fs, locked, ps)[q] == fs[q]
    decreases |ps|
  {
    if ps != [] {
      var c := CleanOne(fs, locked, ps[0]);
      assert !(ps[0] <= q);
      forall j | 0 <= j < |ps| - 1 ensures !(ps[1..][j] <= q) {
        assert ps[1..][j] == ps[j + 1];
      }
      CleanedKeepsOthers(c, locked, ps[1..], q);
    }
  }

  /** The targets of a cleanup, as a set. */
  function Members(ps: seq<Path>): set<Path> {
    set p | p in ps
  }

  /** One target of `cleanup_paths`. */
  method CleanPath(disk: Disk, p: Path)
    requires disk.Valid()
    modifies disk
    ensures disk.Valid()
    ensures disk.fs == CleanOne(old(disk.fs), disk.locked, p)
  {
    if IsFile(disk.fs, p) {
      var _ := disk.Unlink(p);
    } else if IsDir(disk.fs, p) {
      disk.RmTree(p);
    }
  }

  /** `cleanup_paths(*targets)`: never fails. */
  method CleanupPaths(disk: Disk, targets: seq<Path>)
    requires disk.Valid()
    modifies disk
    ensures disk.Valid()
    ensures disk.fs == Cleaned(old(disk.fs), disk.locked, targets)
    ensures Keeps(old(disk.fs), disk.fs, Members(targets))
  {
    ghost var o := disk.fs;
    var i := 0;
    while i < |targets|
      invariant 0 <= i <= |targets|
      invariant disk.Valid()
      invariant Cleaned(disk.fs, disk.locked, targets[i..]) == Cleaned(old(disk.fs), disk.locked, targets)
    {
      CleanPath(disk, targets[i]);
      assert targets[i..][1..] == targets[i + 1..];
      i := i + 1;
    }
    CleanedKeeps(o, disk.locked, targets);
  }

  /** Cleanup changes nothing away from its targets and adds nothing. */
  lemma CleanedKeeps(fs: Tree, locked: set<Path>, ps: seq<Path>)
    ensures Keeps(fs, Cleaned(fs, locked, ps), Members(ps))
  {
    var n := Cleaned(fs, locked, ps);
    forall q | q in fs && Away(q, Members(ps))
      ensures q in n && n[q] == fs[q]
    {
      forall j | 0 <= j < |ps| ensures !(ps[j] <= q) {
        assert ps[j] in Members(ps);
      }
      CleanedKeepsOthers(fs, locked, ps, q);
    }
    CleanedShrinks(fs, locked, ps);
  }
}
