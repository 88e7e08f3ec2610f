/** `launcher/core/notice_store.py`: which notices the user has hidden, and
    until when, kept in a small JSON file next to the launcher. */
module NoticeStore {
  import opened Common
  import opened JsonValue
  import opened Dicts
  import opened FileSystem
  import opened State

  /** `NoticeAck`: a notice and the epoch second up to which it stays hidden.
      The store itself keeps the plain map below. */
  datatype NoticeAck = NoticeAck(noticeId: string, hideUntilEpoch: int)

  /** `{notice_id: hide_until_epoch}`. A value is whatever `isinstance(v, int)`
      let through, so `true` and `false` survive as booleans. */
  type AckMap = Dict<Json>

  /** What `load_ack_map` can return: distinct keys that are trimmed and not
      blank, each mapped to an integer (or a boolean). */
  predicate Clean(m: AckMap) {
    DistinctKeys(m) && forall e :: e in m ==> e.0 != [] && Strip(e.0) == e.0 && IsPyInt(e.1)
  }

  /** The filter of the loading loop: a key that is not blank and an `int`. */
  predicate Accepted(m: Member) {
    Strip(m.key) != [] && IsPyInt(m.value)
  }

  /** The map the loop builds from the members of the JSON object, in
      document order: `out[k.strip()] = v` for every accepted member. */
  function AcksOf(ms: seq<Member>): AckMap {
    if ms == [] then []
    else
      var out := AcksOf(ms[..|ms| - 1]);
      var m := ms[|ms| - 1];
      if Accepted(m) then Put(out, Strip(m.key), m.value) else out
  }

  /** `load_ack_map(path)`: the map held by the file, or `{}` when the file is
      missing, unreadable, not JSON, or not a JSON object. */
  function LoadedAcks(fs: Tree, p: Path): AckMap {
    if IsFile(fs, p) && fs[p].content.Doc? && fs[p].content.json.JObject? then
      AcksOf(fs[p].content.json.members)
    else []
  }

  /** Member `i` of `ms` is accepted and its trimmed key is `k`. */
  predicate AckedAt(ms: seq<Member>, i: int, k: string) {
    0 <= i < |ms| && Accepted(ms[i]) && Strip(ms[i].key) == k
  }

  /** Member `i` is the last accepted one with trimmed key `k`, and holds `v`. */
  predicate LastAckedAt(ms: seq<Member>, i: int, k: string, v: Json) {
    AckedAt(ms, i, k) && ms[i].value == v && forall j :: i < j < |ms| ==> !AckedAt(ms, j, k)
  }

  /** Whatever the file holds, the loaded map is clean. */
  lemma {:induction false} AcksOfClean(ms: seq<Member>)
    ensures Clean(AcksOf(ms))
  {
    if ms != [] {
      var pre := ms[..|ms| - 1];
      var m := ms[|ms| - 1];
      AcksOfClean(pre);
      if Accepted(m) {
        var out := AcksOf(pre);
        PutKeepsDistinct(out, Strip(m.key), m.value);
        PutEntries(out, Strip(m.key), m.value);
        StripIdempotent(m.key);
      }
    }
  }

  lemma LoadedAcksClean(fs: Tree, p: Path)
    ensures Clean(LoadedAcks(fs, p))
  {
    if IsFile(fs, p) && fs[p].content.Doc? && fs[p].content.json.JObject? {
      AcksOfClean(fs[p].content.json.members);
    }
  }

  /** A later duplicate wins: the map holds `k` exactly when some member with
      trimmed key `k` is accepted, and then its value is the one of the LAST
      such member. */
  lemma {:induction false} FindAcks(ms: seq<Member>, k: string)
    ensures Find(AcksOf(ms), k).None? <==> forall i :: 0 <= i < |ms| ==> !AckedAt(ms, i, k)
    ensures Find(AcksOf(ms), k).Some? ==> exists i :: LastAckedAt(ms, i, k, Find(AcksOf(ms), k).value)
  {
    if ms != [] {
      var n := |ms| - 1;
      var r0 := Find(AcksOf(ms[..n]), k);
      FindAcks(ms[..n], k);
      FindAcksStep(ms, k);
      AckedInPrefix(ms, k);
      if AckedAt(ms, n, k) {
        assert LastAckedAt(ms, n, k, ms[n].value);
      } else if r0.Some? {
        var i :| LastAckedAt(ms[..n], i, k, r0.value);
        LastAckedExtend(ms, i, k, r0.value);
      }
    }
  }

  /** Before the last member, `ms` and its prefix accept the same members. */
  lemma AckedInPrefix(ms: seq<Member>, k: string)
    requires ms != []
    ensures forall i :: 0 <= i < |ms| - 1 ==> (AckedAt(ms[..|ms| - 1], i, k) <==> AckedAt(ms, i, k))
  {
  }

  lemma LastAckedExtend(ms: seq<Member>, i: int, k: string, v: Json)
    requires ms != [] && !AckedAt(ms, |ms| - 1, k) && LastAckedAt(ms[..|ms| - 1], i, k, v)
    ensures LastAckedAt(ms, i, k, v)
  {
    var n := |ms| - 1;
    forall j | i < j < |ms| ensures !AckedAt(ms, j, k) {
      if j < n {
        assert !AckedAt(ms[..n], j, k) && ms[..n][j] == ms[j];
      }
    }
  }

  /** The last member decides a key when it is accepted with that key;
      otherwise the map of the members before it does. */
  lemma FindAcksStep(ms: seq<Member>, k: string)
    requires ms != []
    ensures (Find(AcksOf(ms), k) ==
      if AckedAt(ms, |ms| - 1, k) then Some(ms[|ms| - 1].value) else Find(AcksOf(ms[..|ms| - 1]), k))
  {
  }

  /** `json.dumps(m)`: the entries of the map as members of a JSON object. */
  function ToMembers(m: AckMap): (ms: seq<Member>)
    ensures |ms| == |m| && forall i :: 0 <= i < |m| ==> ms[i] == Member(m[i].0, m[i].1)
  {
    if m == [] then [] else ToMembers(m[..|m| - 1]) + [Member(m[|m| - 1].0, m[|m| - 1].1)]
  }

  /** Loading what was saved gives back the saved map, for every map that
      loading could have produced. */
  lemma {:induction false} AcksOfToMembers(m: AckMap)
    requires Clean(m)
    ensures AcksOf(ToMembers(m)) == m
  {
    if m != [] {
      var n := |m| - 1;
      var pre, e := m[..n], m[n];
      assert AcksOf(ToMembers(pre)) == pre by {
        CleanSplit(m);
        AcksOfToMembers(pre);
      }
      assert AcksOf(ToMembers(m)) == Put(pre, e.0, e.1) by {
        CleanSplit(m);
        AcksOfSnoc(ToMembers(pre), Member(e.0, e.1));
      }
      assert Put(pre, e.0, e.1) == m by {
        CleanSplit(m);
        assert pre + [e] == m;
      }
    }
  }

  /** Appending one member to the document runs one more step of the loop. */
  lemma AcksOfSnoc(ms: seq<Member>, x: Member)
    ensures AcksOf(ms + [x]) == if Accepted(x) then Put(AcksOf(ms), Strip(x.key), x.value) else AcksOf(ms)
  {
    assert (ms + [x])[..|ms|] == ms;
  }

  /** The last entry of a clean map is accepted, its key is new to the
      entries before it, and those entries form a clean map. */
  lemma CleanSplit(m: AckMap)
    requires Clean(m) && m != []
    ensures Clean(m[..|m| - 1])
    ensures Accepted(Member(m[|m| - 1].0, m[|m| - 1].1)) && Strip(m[|m| - 1].0) == m[|m| - 1].0
    ensures !HasKey(m[..|m| - 1], m[|m| - 1].0)
  {
    var n := |m| - 1;
    var pre := m[..n];
    assert m[n] in m;
    assert forall x :: x in pre ==> x in m;
    forall i, j | 0 <= i < j < |pre| ensures pre[i].0 != pre[j].0 {
      assert pre[i] == m[i] && pre[j] == m[j];
    }
    forall i | 0 <= i < n ensures pre[i].0 != m[n].0 {
      assert pre[i] == m[i];
    }
  }

  /** The trimmed notice id: `(notice_id or "").strip()`. */
  function IdKey(noticeId: Option<string>): string {
    Strip(if noticeId.Some? then noticeId.value else "")
  }

  /** A map hides a key at `now` when it holds a deadline later than `now`. */
  predicate HiddenIn(m: AckMap, key: string, now: int) {
    match Find(m, key)
    case None => false
    case Some(until) => IsPyInt(until) && PyIntValue(until) > now
  }

  /** `is_hidden(path, notice_id)` at the epoch second `now`. */
  predicate HiddenAt(fs: Tree, p: Path, noticeId: Option<string>, now: int) {
    HiddenIn(LoadedAcks(fs, p), IdKey(noticeId), now)
  }

  /** A blank or missing id is never hidden: no loaded key is blank. */
  lemma BlankNeverHidden(fs: Tree, p: Path, noticeId: Option<string>, now: int)
    requires IdKey(noticeId) == []
    ensures !HiddenAt(fs, p, noticeId, now)
  {
    LoadedAcksClean(fs, p);
  }

  /** Hiding a key until `until`: that key is hidden exactly before `until`,
      and every other key is as hidden as it was. */
  lemma HiddenAfterPut(m: AckMap, key: string, until: int, other: string, t: int)
    requires Clean(m) && key != []
    ensures HiddenIn(Put(m, key, JInt(until)), key, t) <==> t < until
    ensures other != key ==> (HiddenIn(Put(m, key, JInt(until)), other, t) <==> HiddenIn(m, other, t))
  {
  }

  /** `load_ack_map(path)`. */
  method LoadAckMap(disk: Disk, p: Path) returns (out: AckMap)
    ensures out == LoadedAcks(disk.fs, p)
  {
    if !disk.Exists(p) {
      return [];
    }
    var r := disk.Read(p);
    if r.Err? || !r.value.Doc? || !r.value.json.JObject? {
      return [];
    }
    var ms := r.value.json.members;
    out := [];
    var i := 0;
    while i < |ms|
      invariant 0 <= i <= |ms|
      invariant out == AcksOf(ms[..i])
    {
      var m := ms[i];
      if Strip(m.key) != [] && IsPyInt(m.value) {
        out := Put(out, Strip(m.key), m.value);
      }
      assert ms[..i + 1][..i] == ms[..i];
      i := i + 1;
    }
    assert ms[..|ms|] == ms;
  }

  /** `is_hidden(path, notice_id)`, with the clock reading `now` passed in. */
  method IsHidden(disk: Disk, p: Path, noticeId: Option<string>, now: int) returns (r: bool)
    ensures r == HiddenAt(disk.fs, p, noticeId, now)
  {
    var m := LoadAckMap(disk, p);
    var key := IdKey(noticeId);
    var until := Find(m, key);
    if until.None? {
      return false;
    }
    LoadedAcksClean(disk.fs, p);
    assert (key, until.value) in m;
    r := PyIntValue(until.value) > now;
  }

  /** `save_ack_map(path, m)`: the map as a JSON object, written with
      `WriteReplacing`, so that the file is always the old map or the
      complete new one. */
  method SaveAckMap(disk: Disk, p: Path, m: AckMap) returns (e: Option<Exc>)
    requires disk.Valid() && p != []
    modifies disk
    ensures disk.Valid()
    ensures |disk.history| >= |old(disk.history)| && disk.history[..|old(disk.history)|] == old(disk.history)
    ensures AlwaysOldOrNew(disk.history, |old(disk.history)|, old(disk.fs), p, Doc(JObject(ToMembers(m))))
    ensures e.None? ==> p in disk.fs && disk.fs[p] == File(Doc(JObject(ToMembers(m))))
    ensures Keeps(old(disk.fs), disk.fs, {p, TmpPath(p)})
  {
    e := WriteReplacing(disk, p, Doc(JObject(ToMembers(m))));
  }

  /** The round trip through the file: once `p` holds a saved clean map,
      `load_ack_map(p)` returns that map. */
  lemma LoadSaved(fs: Tree, p: Path, m: AckMap)
    requires Clean(m) && p in fs && fs[p] == File(Doc(JObject(ToMembers(m))))
    ensures LoadedAcks(fs, p) == m
  {
    AcksOfToMembers(m);
  }

  /** `hide_for_day(path, notice_id, seconds)` at the epoch second `now`: a
      blank id does nothing; otherwise the id is hidden until `now + seconds`
      and every other entry of the file is kept. */
  method HideForDay(disk: Disk, p: Path, noticeId: Option<string>, now: int, seconds: int)
    returns (e: Option<Exc>)
    requires disk.Valid() && p != []
    modifies disk
    ensures disk.Valid()
    ensures IdKey(noticeId) == [] ==> e.None? && disk.fs == old(disk.fs) && disk.history == old(disk.history)
    ensures (e.None? && IdKey(noticeId) != [] ==>
      LoadedAcks(disk.fs, p) == Put(LoadedAcks(old(disk.fs), p), IdKey(noticeId), JInt(now + seconds)))
    ensures Keeps(old(disk.fs), disk.fs, {p, TmpPath(p)})
  {
    var nid := IdKey(noticeId);
    if nid == [] {
      return None;
    }
    var m := LoadAckMap(disk, p);
    ghost var m0 := m;
    LoadedAcksClean(disk.fs, p);
    StripIdempotent(if noticeId.Some? then noticeId.value else "");
    m := Put(m, nid, JInt(now + seconds));
    PutKeepsDistinct(m0, nid, JInt(now + seconds));
    PutEntries(m0, nid, JInt(now + seconds));
    assert Clean(m);
    e := SaveAckMap(disk, p, m);
    if e.None? {
      LoadSaved(disk.fs, p, m);
    }
  }
}
