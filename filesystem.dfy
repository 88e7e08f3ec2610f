/** The part of the local filesystem the launcher touches, as a map from
    absolute paths to nodes, with the `pathlib` / `os` / `shutil` primitives it
    calls. Failures follow Windows semantics: a rename onto an existing path
    fails, and a file another process holds open (a path in `locked`) can be
    neither replaced, deleted nor moved, nor can any directory above it. */
module FileSystem {
  import opened Common
  import opened JsonValue

  /** An absolute path as its components; `[]` is the filesystem root. */
  type Path = seq<string>

  /** What a file holds. `json.dumps` / `json.loads` are not modelled as text: a
      file written with `json.dumps(v)` holds `Doc(v)`, and a `Blob` is any
      other bytes, which `json.loads` rejects. */
  datatype Content = Blob(bytes: seq<byte>) | Doc(json: Json)

  datatype Node = File(content: Content) | Dir

  type Tree = map<Path, Node>

  // ---------------------------------------------------------------------------
  // Path arithmetic (`p.parent`, `p.name`, `p.with_name`, `p.with_suffix`)
  // ---------------------------------------------------------------------------

  function Parent(p: Path): Path
    requires p != []
  {
    p[..|p| - 1]
  }

  function Name(p: Path): string
    requires p != []
  {
    p[|p| - 1]
  }

  /** `str(p)`, with Windows separators. */
  function PathText(p: Path): string {
    Join(p, '\\')
  }

  /** `repr(str(p))`, as an `OSError`'s message shows a file name. */
  function PathRepr(p: Path): string {
    StrRepr(PathText(p))
  }

  function WithName(p: Path, name: string): (q: Path)
    requires p != []
    ensures q != [] && Parent(q) == Parent(p) && Name(q) == name
  {
    Parent(p) + [name]
  }

  /** `Path.suffix` of a final component: from its last `.`, unless that dot is
      the first or the last character. */
  function Suffix(name: string): (s: string)
    ensures EndsWith(name, s)
    ensures s == [] || s[0] == '.'
  {
    var i := LastIndexOf(name, '.');
    if 0 < i < |name| - 1 then name[i..] else ""
  }

  /** `p.with_suffix(s)`. */
  function WithSuffix(p: Path, s: string): (q: Path)
    requires p != []
    ensures q != [] && Parent(q) == Parent(p)
  {
    var name := Name(p);
    WithName(p, name[..|name| - |Suffix(name)|] + s)
  }

  /** Appending to the current suffix appends to the name: `x.zip` becomes
      `x.zip.part`, and a name with no suffix just gains `.part`. */
  lemma WithLongerSuffix(p: Path, ext: string)
    requires p != []
    ensures WithSuffix(p, Suffix(Name(p)) + ext) == WithName(p, Name(p) + ext)
  {
    var name := Name(p);
    var s := Suffix(name);
    assert name[..|name| - |s|] + s == name;
    assert name[..|name| - |s|] + (s + ext) == name + ext;
  }

  // ---------------------------------------------------------------------------
  // Well-formed trees
  // ---------------------------------------------------------------------------

  predicate IsFile(fs: Tree, p: Path) {
    p in fs && fs[p].File?
  }

  predicate IsDir(fs: Tree, p: Path) {
    p in fs && fs[p].Dir?
  }

  /** `p` names something below the root whose parent directory exists. */
  predicate ParentIsDir(fs: Tree, p: Path) {
    p != [] && (|p| == 1 || IsDir(fs, Parent(p)))
  }

  /** Every entry hangs off an existing directory. */
  predicate WellFormed(fs: Tree) {
    forall q :: q in fs ==> ParentIsDir(fs, q)
  }

  /** `q` cannot be removed or moved because it is, or contains, an open file. */
  predicate Pinned(fs: Tree, locked: set<Path>, q: Path) {
    exists l :: l in locked && l in fs && q <= l
  }

  lemma {:induction false} AncestorIsDir(fs: Tree, q: Path, k: nat)
    requires WellFormed(fs) && q in fs && 1 <= k < |q|
    ensures IsDir(fs, q[..k])
    decreases |q| - k
  {
    assert ParentIsDir(fs, q);
    if k < |q| - 1 {
      AncestorIsDir(fs, Parent(q), k);
      assert Parent(q)[..k] == q[..k];
    }
  }

  /** In a well-formed tree, whatever lies below `p` proves that `p` exists. */
  lemma AncestorExists(fs: Tree, p: Path, q: Path)
    requires WellFormed(fs) && q in fs && p != [] && p <= q
    ensures p in fs
    ensures p != q ==> IsDir(fs, p)
  {
    if |p| < |q| {
      AncestorIsDir(fs, q, |p|);
      assert q[..|p|] == p;
    } else {
      assert p == q;
    }
  }

  // ---------------------------------------------------------------------------
  // Re-rooting subtrees
  // ---------------------------------------------------------------------------

  function Suffixes(fs: Tree, p: Path): set<Path> {
    set q | q in fs && p <= q :: q[|p|..]
  }

  /** The entries at or below `p`, keyed by their path relative to `p`
      (`[]` is `p` itself). */
  function Subtree(fs: Tree, p: Path): Tree {
    map r | r in Suffixes(fs, p) && p + r in fs :: fs[p + r]
  }

  /** A relative tree placed below `dst`. */
  function Rooted(dst: Path, m: Tree): Tree {
    map q | q in (set r | r in m :: dst + r) && dst <= q && q[|dst|..] in m :: m[q[|dst|..]]
  }

  /** The entries that are not at or below `p`. */
  function Outside(fs: Tree, p: Path): Tree {
    map q | q in fs && !(p <= q) :: fs[q]
  }

  lemma SubtreeAt(fs: Tree, p: Path, r: Path)
    ensures r in Subtree(fs, p) <==> p + r in fs
    ensures r in Subtree(fs, p) ==> Subtree(fs, p)[r] == fs[p + r]
  {
    if p + r in fs {
      assert (p + r)[|p|..] == r;
    }
  }

  lemma RootedAt(dst: Path, m: Tree, q: Path)
    ensures q in Rooted(dst, m) <==> dst <= q && q[|dst|..] in m
    ensures q in Rooted(dst, m) ==> Rooted(dst, m)[q] == m[q[|dst|..]]
  {
    if dst <= q && q[|dst|..] in m {
      assert q == dst + q[|dst|..];
    }
  }

  /** Two trees with the same entries at and below `p` have the same subtree there. */
  lemma SubtreeOfAgreeing(a: Tree, b: Tree, p: Path)
    requires forall q :: p <= q ==> (q in a <==> q in b)
    requires forall q :: p <= q && q in a ==> a[q] == b[q]
    ensures Subtree(a, p) == Subtree(b, p)
  {
    var sa, sb := Subtree(a, p), Subtree(b, p);
    forall r ensures (r in sa <==> r in sb) && (r in sa ==> sa[r] == sb[r]) {
      SubtreeAt(a, p, r);
      SubtreeAt(b, p, r);
    }
  }

  /** An absent path has an empty subtree in a well-formed tree. */
  lemma SubtreeOfAbsent(fs: Tree, p: Path)
    requires WellFormed(fs) && p != [] && p !in fs
    ensures Subtree(fs, p) == map[]
  {
    forall r | r in Subtree(fs, p) ensures false {
      SubtreeAt(fs, p, r);
      AncestorExists(fs, p, p + r);
    }
  }

  // ---------------------------------------------------------------------------
  // The effect of each primitive on the tree
  // ---------------------------------------------------------------------------

  /** The non-empty prefixes of `p`: `p` and its ancestors below the root. */
  function Prefixes(p: Path): set<Path> {
    set k | 1 <= k <= |p| :: p[..k]
  }

  /** `p.mkdir(parents=True, exist_ok=True)` when it succeeds. */
  function WithDirs(fs: Tree, p: Path): Tree {
    fs + map q | q in Prefixes(p) && q !in fs :: Dir
  }

  /** `src.rename(dst)` / `os.replace` when it succeeds: the subtree moves. */
  function Renamed(fs: Tree, src: Path, dst: Path): Tree {
    Outside(fs, src) + Rooted(dst, Subtree(fs, src))
  }

  /** `shutil.rmtree(p, ignore_errors=True)`: everything at or below a
      directory goes except open files and the directories holding them; a file
      is left alone. */
  function RmTreeResult(fs: Tree, locked: set<Path>, p: Path): Tree {
    if IsFile(fs, p) then fs
    else map q | q in fs && (!(p <= q) || Pinned(fs, locked, q)) :: fs[q]
  }

  /** `ZipFile.extractall(dir)` when it succeeds. */
  function Extracted(fs: Tree, dir: Path, archive: Tree): Tree {
    fs + Rooted(dir, archive)
  }

  // ---------------------------------------------------------------------------
  // When each primitive fails
  // ---------------------------------------------------------------------------

  /** The shortest prefix of `p` longer than `k` that is a file, or `p`. */
  function FileAncestor(fs: Tree, p: Path, k: nat): Path
    decreases |p| - k
  {
    if k >= |p| then p
    else if IsFile(fs, p[..k + 1]) then p[..k + 1]
    else FileAncestor(fs, p, k + 1)
  }

  /** The path `MkdirsError` names is a file on the way to `p`. */
  lemma {:induction false} FileAncestorIsFile(fs: Tree, p: Path, k: nat)
    requires exists j :: k < j <= |p| && IsFile(fs, p[..j])
    ensures FileAncestor(fs, p, k) <= p && IsFile(fs, FileAncestor(fs, p, k))
    decreases |p| - k
  {
    var j :| k < j <= |p| && IsFile(fs, p[..j]);
    if !IsFile(fs, p[..k + 1]) {
      assert j > k + 1;
      FileAncestorIsFile(fs, p, k + 1);
    }
  }

  /** `p.mkdir(parents=True, exist_ok=True)` fails when a file stands on the
      way: `mkdir` climbs to that file through the missing-path errors of its
      children, and the file, not being a directory, is re-raised as existing. */
  function MkdirsError(fs: Tree, p: Path): Option<Exc> {
    if exists k :: 1 <= k <= |p| && IsFile(fs, p[..k]) then
      Some(Exc(OSError, "[WinError 183] Cannot create a file when that file already exists: "
                        + PathRepr(FileAncestor(fs, p, 0))))
    else None
  }

  /** `open(p, "w")`. */
  function WriteError(fs: Tree, locked: set<Path>, p: Path): Option<Exc> {
    if !ParentIsDir(fs, p) then Some(Exc(FileNotFound, "[Errno 2] No such file or directory: " + PathRepr(p)))
    else if IsDir(fs, p) || (p in fs && p in locked) then
      Some(Exc(OSError, "[Errno 13] Permission denied: " + PathRepr(p)))
    else None
  }

  /** `p.unlink()`. */
  function UnlinkError(fs: Tree, locked: set<Path>, p: Path): Option<Exc> {
    if p !in fs then Some(Exc(FileNotFound, "[WinError 2] The system cannot find the file specified: " + PathRepr(p)))
    else if fs[p].Dir? then Some(Exc(OSError, "[WinError 5] Access is denied: " + PathRepr(p)))
    else if p in locked then
      Some(Exc(OSError, "[WinError 32] The process cannot access the file because it is being used by another process: "
        + PathRepr(p)))
    else None
  }

  /** How an `OSError` raised by a two-path call names its paths. */
  function Paths(src: Path, dst: Path): string {
    ": " + PathRepr(src) + " -> " + PathRepr(dst)
  }

  /** `src.rename(dst)` on Windows. */
  function RenameError(fs: Tree, locked: set<Path>, src: Path, dst: Path): Option<Exc> {
    if src !in fs && ParentIsDir(fs, src) then
      Some(Exc(FileNotFound, "[WinError 2] The system cannot find the file specified" + Paths(src, dst)))
    else if src !in fs || !ParentIsDir(fs, dst) then
      Some(Exc(FileNotFound, "[WinError 3] The system cannot find the path specified" + Paths(src, dst)))
    else if dst in fs then
      Some(Exc(OSError, "[WinError 183] Cannot create a file when that file already exists" + Paths(src, dst)))
    else if src <= dst then Some(Exc(OSError, "[WinError 87] The parameter is incorrect" + Paths(src, dst)))
    else if Pinned(fs, locked, src) then Some(Exc(OSError, "[WinError 5] Access is denied" + Paths(src, dst)))
    else None
  }

  /** `src.replace(dst)` (`os.replace`): like a rename, but an existing file at
      `dst` that is not open elsewhere is overwritten. */
  function ReplaceError(fs: Tree, locked: set<Path>, src: Path, dst: Path): Option<Exc> {
    if src !in fs then Some(Exc(FileNotFound, "[WinError 2] The system cannot find the file specified" + Paths(src, dst)))
    else if dst in fs && (fs[dst].Dir? || fs[src].Dir? || dst in locked) then
      Some(Exc(OSError, "[WinError 5] Access is denied" + Paths(src, dst)))
    else RenameError(fs - {dst}, locked, src, dst)
  }

  /** `Replace` removes whatever file was at `dst`, then renames. */
  function Replaced(fs: Tree, src: Path, dst: Path): Tree {
    Renamed(fs - {dst}, src, dst)
  }

  /** `ZipFile.extractall(dir)`: `dir` must be a directory, no member may lie
      below a file member (creating its directory fails as existing), turn a
      file into a directory or back, or overwrite an open file. */
  function ExtractError(fs: Tree, locked: set<Path>, dir: Path, archive: Tree): Option<Exc> {
    if !IsDir(fs, dir) then Some(Exc(FileNotFound, "[WinError 3] The system cannot find the path specified"))
    else if !WellFormed(archive) then
      Some(Exc(OSError, "[WinError 183] Cannot create a file when that file already exists"))
    else if exists r :: r in archive && dir + r in fs && (fs[dir + r].Dir? != archive[r].Dir?) then
      Some(Exc(OSError, "[WinError 183] Cannot create a file when that file already exists"))
    else if exists r :: r in archive && archive[r].File? && dir + r in locked && dir + r in fs then
      Some(Exc(OSError, "[Errno 13] Permission denied"))
    else None
  }

  // ---------------------------------------------------------------------------
  // Each successful primitive keeps the tree well-formed
  // ---------------------------------------------------------------------------

  lemma WithDirsWellFormed(fs: Tree, p: Path)
    requires WellFormed(fs) && MkdirsError(fs, p).None?
    ensures WellFormed(WithDirs(fs, p))
  {
    var n := WithDirs(fs, p);
    forall q | q in n ensures ParentIsDir(n, q) {
      if q !in fs {
        var k :| 1 <= k <= |p| && p[..k] == q;
        if k > 1 {
          assert Parent(q) == p[..k - 1];
          assert p[..k - 1] in Prefixes(p);
        }
      } else {
        assert ParentIsDir(fs, q);
      }
    }
  }

  lemma WriteWellFormed(fs: Tree, locked: set<Path>, p: Path, c: Content)
    requires WellFormed(fs) && WriteError(fs, locked, p).None?
    ensures WellFormed(fs[p := File(c)])
  {
    var n := fs[p := File(c)];
    forall q | q in n ensures ParentIsDir(n, q) {
      if q != p {
        assert ParentIsDir(fs, q);
      }
    }
  }

  lemma UnlinkWellFormed(fs: Tree, p: Path)
    requires WellFormed(fs) && IsFile(fs, p)
    ensures WellFormed(fs - {p})
  {
    var n := fs - {p};
    forall q | q in n ensures ParentIsDir(n, q) {
      assert ParentIsDir(fs, q);
    }
  }

  /** Where each entry of a renamed tree comes from. */
  lemma RenamedAt(fs: Tree, src: Path, dst: Path, q: Path)
    ensures q in Renamed(fs, src, dst) <==>
      (dst <= q && src + q[|dst|..] in fs) || (q in fs && !(src <= q))
    ensures dst <= q && src + q[|dst|..] in fs ==> Renamed(fs, src, dst)[q] == fs[src + q[|dst|..]]
    ensures !(dst <= q && src + q[|dst|..] in fs) && q in fs && !(src <= q) ==>
      Renamed(fs, src, dst)[q] == fs[q]
  {
    var sub := Subtree(fs, src);
    RootedAt(dst, sub, q);
    if dst <= q {
      SubtreeAt(fs, src, q[|dst|..]);
    }
  }

  lemma RenamedWellFormed(fs: Tree, locked: set<Path>, src: Path, dst: Path)
    requires WellFormed(fs) && RenameError(fs, locked, src, dst).None?
    ensures WellFormed(Renamed(fs, src, dst))
  {
    var n := Renamed(fs, src, dst);
    forall q | q in n ensures ParentIsDir(n, q) {
      RenamedAt(fs, src, dst, q);
      if dst <= q && src + q[|dst|..] in fs {
        MovedHasParent(fs, locked, src, dst, q);
      } else {
        KeptHasParent(fs, locked, src, dst, q);
      }
    }
  }

  /** An entry that came over from under `src` still hangs off a directory. */
  lemma MovedHasParent(fs: Tree, locked: set<Path>, src: Path, dst: Path, q: Path)
    requires WellFormed(fs) && RenameError(fs, locked, src, dst).None?
    requires dst <= q && src + q[|dst|..] in fs
    ensures ParentIsDir(Renamed(fs, src, dst), q)
  {
    var r := q[|dst|..];
    if r == [] {
      assert q == dst;
      if |q| > 1 {
        var pd := Parent(dst);
        assert !(src <= pd);
        RenamedAt(fs, src, dst, pd);
      }
    } else {
      assert ParentIsDir(fs, src + r);
      assert Parent(src + r) == src + Parent(r);
      assert Parent(q) == dst + Parent(r);
      assert Parent(q)[|dst|..] == Parent(r);
      RenamedAt(fs, src, dst, Parent(q));
    }
  }

  /** An entry outside `src` that stayed still hangs off a directory. */
  lemma KeptHasParent(fs: Tree, locked: set<Path>, src: Path, dst: Path, q: Path)
    requires WellFormed(fs) && RenameError(fs, locked, src, dst).None?
    requires q in fs && !(src <= q) && !(dst <= q && src + q[|dst|..] in fs)
    ensures ParentIsDir(Renamed(fs, src, dst), q)
  {
    assert ParentIsDir(fs, q);
    if dst <= q {
      AncestorExists(fs, dst, q);
    }
    if |q| > 1 {
      assert !(src <= Parent(q));
      RenamedAt(fs, src, dst, Parent(q));
      if dst <= Parent(q) {
        AncestorExists(fs, dst, Parent(q));
      }
    }
  }

  lemma ReplacedWellFormed(fs: Tree, locked: set<Path>, src: Path, dst: Path)
    requires WellFormed(fs) && ReplaceError(fs, locked, src, dst).None?
    ensures WellFormed(Replaced(fs, src, dst))
  {
    if dst in fs {
      UnlinkWellFormed(fs, dst);
    } else {
      assert fs - {dst} == fs;
    }
    RenamedWellFormed(fs - {dst}, locked, src, dst);
  }

  lemma RmTreeWellFormed(fs: Tree, locked: set<Path>, p: Path)
    requires WellFormed(fs)
    ensures WellFormed(RmTreeResult(fs, locked, p))
  {
    if !IsFile(fs, p) {
      var n := RmTreeResult(fs, locked, p);
      forall q | q in n ensures ParentIsDir(n, q) {
        assert ParentIsDir(fs, q);
        if |q| > 1 && Pinned(fs, locked, q) {
          var l :| l in locked && l in fs && q <= l;
          assert Parent(q) <= l;
        }
      }
    }
  }

  lemma ExtractedWellFormed(fs: Tree, locked: set<Path>, dir: Path, archive: Tree)
    requires WellFormed(fs) && ExtractError(fs, locked, dir, archive).None?
    ensures WellFormed(Extracted(fs, dir, archive))
  {
    var n := Extracted(fs, dir, archive);
    forall q | q in n ensures ParentIsDir(n, q) {
      RootedAt(dir, archive, q);
      if dir <= q && q[|dir|..] in archive {
        var r := q[|dir|..];
        assert ParentIsDir(archive, r);
        assert q == dir + r;
        if |r| == 1 {
          assert Parent(q) == dir;
          RootedAt(dir, archive, dir);
          assert dir[|dir|..] == [];
        } else {
          assert Parent(q) == dir + Parent(r);
          assert Parent(q)[|dir|..] == Parent(r);
          RootedAt(dir, archive, Parent(q));
        }
      } else {
        assert ParentIsDir(fs, q);
        if |q| > 1 {
          RootedAt(dir, archive, Parent(q));
          if dir <= Parent(q) && Parent(q)[|dir|..] in archive {
            assert dir + Parent(q)[|dir|..] == Parent(q);
          }
        }
      }
    }
  }

  // ---------------------------------------------------------------------------
  // Frames: what an operation leaves alone
  // ---------------------------------------------------------------------------

  /** `q` lies at or below none of `roots`. */
  predicate Away(q: Path, roots: set<Path>) {
    forall r :: r in roots ==> !(r <= q)
  }

  /** Going from `o` to `n` changed nothing that lies away from `roots`:
      every such entry is still there with the same node, and the only new
      entries away from `roots` are directories (the parents that
      `mkdir(parents=True)` creates on the way to them). */
  ghost predicate Keeps(o: Tree, n: Tree, roots: set<Path>) {
    && (forall q :: q in o && Away(q, roots) ==> q in n && n[q] == o[q])
    && (forall q :: q in n && Away(q, roots) ==> q in o || n[q] == Dir)
  }

  /** Frames compose: two steps change nothing away from both root sets. */
  lemma KeepsTrans(a: Tree, b: Tree, c: Tree, r1: set<Path>, r2: set<Path>, r: set<Path>)
    requires Keeps(a, b, r1) && Keeps(b, c, r2) && r1 <= r && r2 <= r
    ensures Keeps(a, c, r)
  {
    forall q | q in a && Away(q, r)
      ensures q in c && c[q] == a[q]
    {
      assert Away(q, r1) && Away(q, r2);
    }
  }

  /** A frame may be widened to roots that lie at or above the old ones. */
  lemma KeepsWiden(a: Tree, b: Tree, r1: set<Path>, r: set<Path>)
    requires Keeps(a, b, r1)
    requires forall x :: x in r1 ==> exists y :: y in r && y <= x
    ensures Keeps(a, b, r)
  {
    forall q | q in a && Away(q, r)
      ensures q in b && b[q] == a[q]
    {
      forall x | x in r1 ensures !(x <= q) {
        var y :| y in r && y <= x;
      }
    }
  }

  /** A frame widens to any larger root set. */
  lemma KeepsMore(a: Tree, b: Tree, r1: set<Path>, r: set<Path>)
    requires Keeps(a, b, r1) && r1 <= r
    ensures Keeps(a, b, r)
  {
    forall q | q in a && Away(q, r) ensures q in b && b[q] == a[q] {
      assert Away(q, r1);
    }
  }

  /** A frame whose roots all lie below `y` widens to any root set holding `y`. */
  lemma KeepsUnder(a: Tree, b: Tree, r1: set<Path>, r: set<Path>, y: Path)
    requires Keeps(a, b, r1) && y in r && forall x :: x in r1 ==> y <= x
    ensures Keeps(a, b, r)
  {
    KeepsWiden(a, b, r1, r);
  }

  /** Creating the directories on the way to `p` keeps everything and adds
      only directories. */
  lemma KeepsWithDirs(fs: Tree, p: Path)
    ensures Keeps(fs, WithDirs(fs, p), {})
  {
  }

  lemma KeepsRenamed(fs: Tree, src: Path, dst: Path)
    ensures Keeps(fs, Renamed(fs, src, dst), {src, dst})
  {
    forall q | q in fs && Away(q, {src, dst})
      ensures q in Renamed(fs, src, dst) && Renamed(fs, src, dst)[q] == fs[q]
    {
      assert !(src <= q) && !(dst <= q);
      RenamedAt(fs, src, dst, q);
    }
  }

  lemma KeepsReplaced(fs: Tree, src: Path, dst: Path)
    ensures Keeps(fs, Replaced(fs, src, dst), {src, dst})
  {
    KeepsRenamed(fs - {dst}, src, dst);
  }

  lemma KeepsExtracted(fs: Tree, dir: Path, archive: Tree)
    ensures Keeps(fs, Extracted(fs, dir, archive), {dir})
  {
    forall q | q in fs && Away(q, {dir})
      ensures q in Extracted(fs, dir, archive) && Extracted(fs, dir, archive)[q] == fs[q]
    {
      assert !(dir <= q);
      RootedAt(dir, archive, q);
    }
  }

  // ---------------------------------------------------------------------------
  // What each primitive does to a subtree
  // ---------------------------------------------------------------------------

  /** Neither path lies at or below the other. */
  predicate Independent(a: Path, b: Path) {
    !(a <= b) && !(b <= a)
  }

  /** Two prefixes of the same path are prefixes of each other. */
  lemma PrefixesComparable(a: Path, b: Path, q: Path)
    ensures a <= q && b <= q ==> a <= b || b <= a
  {
    if a <= q && b <= q && |a| <= |b| {
      assert a == q[..|a|] == b[..|a|];
    }
  }

  /** In a well-formed tree nothing lies below an absent path. */
  lemma AbsentNotAncestor(fs: Tree, p: Path, q: Path)
    ensures WellFormed(fs) && q in fs && p != [] && p !in fs ==> !(p <= q)
  {
    if WellFormed(fs) && q in fs && p != [] && p <= q {
      AncestorExists(fs, p, q);
    }
  }

  /** Creating the ancestors of `d` leaves alone the subtree of a path that is
      not one of them. */
  lemma SubtreeOfWithDirs(fs: Tree, d: Path, p: Path)
    requires !(p <= d)
    ensures Subtree(WithDirs(fs, d), p) == Subtree(fs, p)
  {
    var n := WithDirs(fs, d);
    forall q | p <= q ensures q !in Prefixes(d) {
      forall k | 1 <= k <= |d| ensures d[..k] != q {
        PrefixesComparable(p, d[..k], d);
      }
    }
    SubtreeOfAgreeing(n, fs, p);
  }

  /** `rmtree(b)` leaves alone the subtree of a path independent of `b`. */
  lemma SubtreeOfRmTree(fs: Tree, locked: set<Path>, b: Path, p: Path)
    requires Independent(b, p)
    ensures Subtree(RmTreeResult(fs, locked, b), p) == Subtree(fs, p)
  {
    forall q | q in fs && p <= q ensures !(b <= q) {
      PrefixesComparable(b, p, q);
    }
    SubtreeOfAgreeing(RmTreeResult(fs, locked, b), fs, p);
  }

  /** After `rmtree(p)` only open files and the directories holding them
      remain at or below `p`. */
  lemma RmTreeLeavesPinned(fs: Tree, locked: set<Path>, p: Path)
    requires !IsFile(fs, p)
    ensures forall q :: q in RmTreeResult(fs, locked, p) && p <= q ==> Pinned(fs, locked, q)
  {
  }

  /** Below a file there is nothing, so `rmtree` on a file leaves only the file. */
  lemma FileHasNoChildren(fs: Tree, p: Path)
    requires WellFormed(fs) && p != [] && IsFile(fs, p)
    ensures forall q :: q in fs && p <= q ==> q == p
  {
    forall q | q in fs && p <= q && q != p ensures false {
      assert |p| < |q| && q[..|p|] == p;
      AncestorIsDir(fs, q, |p|);
    }
  }

  /** An open file left below a directory by `rmtree` keeps pinning. */
  lemma PinnedStaysPinned(fs: Tree, locked: set<Path>, p: Path, q: Path)
    requires !IsFile(fs, p) && p <= q && Pinned(fs, locked, q)
    ensures Pinned(RmTreeResult(fs, locked, p), locked, q)
  {
    var l :| l in locked && l in fs && q <= l;
    assert Pinned(fs, locked, l);
  }

  /** After `rmtree(p)` what remains at or below `p` is pinned in the new
      tree, or `p` itself when it is a plain file. */
  lemma RmTreeRemnants(fs: Tree, locked: set<Path>, p: Path)
    requires WellFormed(fs) && p != []
    ensures var n := RmTreeResult(fs, locked, p);
      forall q :: q in n && p <= q ==> Pinned(n, locked, q) || (q == p && IsFile(n, q))
  {
    if IsFile(fs, p) {
      FileHasNoChildren(fs, p);
    } else {
      var n := RmTreeResult(fs, locked, p);
      forall q | q in n && p <= q ensures Pinned(n, locked, q) {
        PinnedStaysPinned(fs, locked, p, q);
      }
    }
  }

  /** Creating a directory with its parents leaves a directory there. */
  lemma WithDirsMakesDir(fs: Tree, p: Path)
    requires p != [] && MkdirsError(fs, p).None?
    ensures IsDir(WithDirs(fs, p), p)
  {
    assert p[..|p|] == p;
  }

  /** Renaming a plain file moves just that entry. */
  lemma RenamedFile(fs: Tree, locked: set<Path>, src: Path, dst: Path)
    requires WellFormed(fs) && IsFile(fs, src) && RenameError(fs, locked, src, dst).None?
    ensures Renamed(fs, src, dst) == (fs - {src})[dst := fs[src]]
  {
    var n, m := Renamed(fs, src, dst), (fs - {src})[dst := fs[src]];
    FileHasNoChildren(fs, src);
    AbsentNotAncestor(fs, dst, src);
    forall q ensures (q in n <==> q in m) && (q in n ==> n[q] == m[q]) {
      RenamedFileAt(fs, src, dst, q);
    }
  }

  /** One path of `RenamedFile`: a file has nothing below it, so only `dst`
      itself lands under `dst`. */
  lemma RenamedFileAt(fs: Tree, src: Path, dst: Path, q: Path)
    requires src in fs && dst !in fs && !(src <= dst) && !(dst <= src)
    requires forall p :: p in fs && src <= p ==> p == src
    ensures var n, m := Renamed(fs, src, dst), (fs - {src})[dst := fs[src]];
      (q in n <==> q in m) && (q in n ==> n[q] == m[q])
  {
    RenamedAt(fs, src, dst, q);
    assert src + dst[|dst|..] == src;
    if dst <= q && src + q[|dst|..] in fs {
      assert src <= src + q[|dst|..];
      assert src + q[|dst|..] == src;
      assert |q[|dst|..]| == 0;
      assert q == dst;
    } else if q in fs && !(src <= q) {
      assert q != dst;
    }
  }

  /** A rename moves the subtree of `src` to `dst`. */
  lemma SubtreeOfRenamedDst(fs: Tree, locked: set<Path>, src: Path, dst: Path)
    requires WellFormed(fs) && RenameError(fs, locked, src, dst).None?
    ensures Subtree(Renamed(fs, src, dst), dst) == Subtree(fs, src)
  {
    var n := Renamed(fs, src, dst);
    SubtreeOfAbsent(fs, dst);
    forall r ensures (r in Subtree(n, dst) <==> r in Subtree(fs, src))
      && (r in Subtree(fs, src) ==> Subtree(n, dst)[r] == Subtree(fs, src)[r])
    {
      SubtreeOfRenamedAt(fs, src, dst, r);
    }
  }

  /** One entry of `SubtreeOfRenamedDst`. */
  lemma SubtreeOfRenamedAt(fs: Tree, src: Path, dst: Path, r: Path)
    requires Subtree(fs, dst) == map[]
    ensures var n := Renamed(fs, src, dst);
      && (r in Subtree(n, dst) <==> r in Subtree(fs, src))
      && (r in Subtree(fs, src) ==> Subtree(n, dst)[r] == Subtree(fs, src)[r])
  {
    SubtreeAt(Renamed(fs, src, dst), dst, r);
    SubtreeAt(fs, src, r);
    SubtreeAt(fs, dst, r);
    assert (dst + r)[|dst|..] == r;
    RenamedAt(fs, src, dst, dst + r);
  }

  /** After a rename nothing is left at or below `src`. */
  lemma RenamedDropsSrc(fs: Tree, locked: set<Path>, src: Path, dst: Path)
    requires WellFormed(fs) && RenameError(fs, locked, src, dst).None?
    ensures forall q :: src <= q ==> q !in Renamed(fs, src, dst)
  {
    AbsentNotAncestor(fs, dst, src);
    forall q | src <= q ensures q !in Renamed(fs, src, dst) {
      RenamedAt(fs, src, dst, q);
      PrefixesComparable(src, dst, q);
    }
  }

  /** A rename leaves alone the subtree of a path independent of both ends. */
  lemma SubtreeOfRenamedOther(fs: Tree, src: Path, dst: Path, p: Path)
    requires Independent(p, src) && Independent(p, dst)
    ensures Subtree(Renamed(fs, src, dst), p) == Subtree(fs, p)
  {
    var n := Renamed(fs, src, dst);
    forall q | p <= q ensures (q in n <==> q in fs) && (q in fs ==> n[q] == fs[q]) {
      PrefixesComparable(src, p, q);
      PrefixesComparable(dst, p, q);
      RenamedAt(fs, src, dst, q);
    }
    SubtreeOfAgreeing(n, fs, p);
  }

  /** A record with one more state appended starts with its old form. */
  lemma HistoryAppend(a: seq<Tree>, x: Tree)
    ensures (a + [x])[..|a|] == a
  {
  }

  /** A record that grew twice grew from its first form. */
  lemma HistoryGrows(a: seq<Tree>, b: seq<Tree>, c: seq<Tree>)
    requires |b| >= |a| && b[..|a|] == a && |c| >= |b| && c[..|b|] == b
    ensures |c| >= |a| && c[..|a|] == a
  {
    assert c[..|a|] == c[..|b|][..|a|];
  }

  // ---------------------------------------------------------------------------
  // The disk
  // ---------------------------------------------------------------------------

  /** The filesystem the launcher works on. `history` records every state the
      disk has been in, so that a sequence of operations can be judged by its
      intermediate states as well as its final one. */
  class Disk {
    var fs: Tree
    const locked: set<Path>
    ghost var history: seq<Tree>

    ghost predicate Valid()
      reads this
    {
      WellFormed(fs) && |history| > 0 && history[|history| - 1] == fs
    }

    constructor (initial: Tree, open: set<Path>)
      requires WellFormed(initial)
      ensures Valid() && fs == initial && locked == open && history == [initial]
    {
      fs := initial;
      locked := open;
      history := [initial];
    }

    /** `p.exists()`. */
    function Exists(p: Path): bool
      reads this
    {
      p in fs
    }

    /** `p.read_text()` / `p.read_bytes()`. */
    function Read(p: Path): (r: Result<Content>)
      reads this
      ensures r.Ok? <==> IsFile(fs, p)
      ensures r.Ok? ==> r.value == fs[p].content
      ensures r.Err? && p !in fs ==> r.error.kind == FileNotFound
      ensures r.Err? && p in fs ==> r.error.kind == OSError
      ensures r.Err? ==> EndsWith(r.error.msg, ": " + PathRepr(p))
    {
      if p !in fs then Err(Exc(FileNotFound, "[Errno 2] No such file or directory: " + PathRepr(p)))
      else if fs[p].Dir? then Err(Exc(OSError, "[Errno 13] Permission denied: " + PathRepr(p)))
      else Ok(fs[p].content)
    }

    /** `p.mkdir(parents=True, exist_ok=True)`. */
    method Mkdirs(p: Path) returns (e: Option<Exc>)
      requires Valid()
      modifies this
      ensures Valid()
      ensures e == MkdirsError(old(fs), p)
      ensures e.None? ==> fs == WithDirs(old(fs), p) && history == old(history) + [fs]
      ensures e.Some? ==> fs == old(fs) && history == old(history)
      ensures Keeps(old(fs), fs, {})
    {
      KeepsWithDirs(fs, p);
      e := MkdirsError(fs, p);
      if e.None? {
        WithDirsWellFormed(fs, p);
        fs := WithDirs(fs, p);
        history := history + [fs];
      }
    }

    /** `open(p, "w")` followed by one write of `c`. */
    method Write(p: Path, c: Content) returns (e: Option<Exc>)
      requires Valid()
      modifies this
      ensures Valid()
      ensures e == WriteError(old(fs), locked, p)
      ensures e.None? ==> fs == old(fs)[p := File(c)] && history == old(history) + [fs]
      ensures e.Some? ==> fs == old(fs) && history == old(history)
      ensures Keeps(old(fs), fs, {p})
    {
      e := WriteError(fs, locked, p);
      if e.None? {
        WriteWellFormed(fs, locked, p, c);
        fs := fs[p := File(c)];
        history := history + [fs];
      }
    }

    /** `f.write(chunk)` on a file this process has open in binary mode. */
    method Append(p: Path, chunk: seq<byte>)
      requires Valid() && IsFile(fs, p) && fs[p].content.Blob?
      modifies this
      ensures Valid()
      ensures fs == old(fs)[p := File(Blob(old(fs)[p].content.bytes + chunk))]
      ensures history == old(history) + [fs]
      ensures Keeps(old(fs), fs, {p})
    {
      var n := fs[p := File(Blob(fs[p].content.bytes + chunk))];
      assert forall q :: q in n ==> q in fs && (q != p ==> n[q] == fs[q]);
      assert forall q :: q in fs && q != p ==> (fs[q].Dir? <==> n[q].Dir?);
      fs := n;
      history := history + [fs];
    }

    /** `p.unlink()`. */
    method Unlink(p: Path) returns (e: Option<Exc>)
      requires Valid()
      modifies this
      ensures Valid()
      ensures e == UnlinkError(old(fs), locked, p)
      ensures e.None? ==> fs == old(fs) - {p} && history == old(history) + [fs]
      ensures e.Some? ==> fs == old(fs) && history == old(history)
      ensures Keeps(old(fs), fs, {p})
    {
      e := UnlinkError(fs, locked, p);
      if e.None? {
        UnlinkWellFormed(fs, p);
        fs := fs - {p};
        history := history + [fs];
      }
    }

    /** `src.rename(dst)`. */
    method Rename(src: Path, dst: Path) returns (e: Option<Exc>)
      requires Valid()
      modifies this
      ensures Valid()
      ensures e == RenameError(old(fs), locked, src, dst)
      ensures e.None? ==> fs == Renamed(old(fs), src, dst) && history == old(history) + [fs]
      ensures e.Some? ==> fs == old(fs) && history == old(history)
      ensures Keeps(old(fs), fs, {src, dst})
    {
      KeepsRenamed(fs, src, dst);
      e := RenameError(fs, locked, src, dst);
      if e.None? {
        RenamedWellFormed(fs, locked, src, dst);
        fs := Renamed(fs, src, dst);
        history := history + [fs];
      }
    }

    /** `src.replace(dst)`. */
    method Replace(src: Path, dst: Path) returns (e: Option<Exc>)
      requires Valid()
      modifies this
      ensures Valid()
      ensures e == ReplaceError(old(fs), locked, src, dst)
      ensures e.None? ==> fs == Replaced(old(fs), src, dst) && history == old(history) + [fs]
      ensures e.Some? ==> fs == old(fs) && history == old(history)
      ensures Keeps(old(fs), fs, {src, dst})
    {
      KeepsReplaced(fs, src, dst);
      e := ReplaceError(fs, locked, src, dst);
      if e.None? {
        ReplacedWellFormed(fs, locked, src, dst);
        fs := Replaced(fs, src, dst);
        history := history + [fs];
      }
    }

    /** `shutil.rmtree(p, ignore_errors=True)`: never raises. */
    method RmTree(p: Path)
      requires Valid()
      modifies this
      ensures Valid()
      ensures fs == RmTreeResult(old(fs), locked, p) && history == old(history) + [fs]
      ensures Keeps(old(fs), fs, {p})
    {
      RmTreeWellFormed(fs, locked, p);
      fs := RmTreeResult(fs, locked, p);
      history := history + [fs];
    }

    /** `ZipFile.extractall(dir)` of an archive already read. */
    method ExtractAll(dir: Path, archive: Tree) returns (e: Option<Exc>)
      requires Valid()
      modifies this
      ensures Valid()
      ensures e == ExtractError(old(fs), locked, dir, archive)
      ensures e.None? ==> fs == Extracted(old(fs), dir, archive) && history == old(history) + [fs]
      ensures e.Some? ==> fs == old(fs) && history == old(history)
      ensures Keeps(old(fs), fs, {dir})
    {
      KeepsExtracted(fs, dir, archive);
      e := ExtractError(fs, locked, dir, archive);
      if e.None? {
        ExtractedWellFormed(fs, locked, dir, archive);
        fs := Extracted(fs, dir, archive);
        history := history + [fs];
      }
    }
  }
}
