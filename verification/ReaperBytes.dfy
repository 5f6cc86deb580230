/**
 The bytes a run claims and the bytes its deletes free.  A claim is the size recorded for the
 torrent; a delete frees the files that are still there.
 */
module ReaperBytes {
  import opened Basics
  import opened Reaper
  import opened ReaperSafety

  // ---------------------------------------------------------------- what stands behind a claim

  predicate Claims(e: Event) { e.Finished? && e.status == Succeeded }

  /** A claim is its action's recorded size, and stands right behind the accepted delete of its
      torrent and the audit row of it. */
  predicate Backed(log: Log, e: nat)
    requires e < |log| && Claims(log[e])
  {
    var id := log[e].action;
    && 2 <= e && id < e && log[id].Inserted? && log[e].freed == log[id].item.size
    && log[e - 2] == Deleted(id, Torrent(log[id].item.hash), Ok)
  }

  ghost predicate AllBacked(log: Log) { forall e: nat :: e < |log| && Claims(log[e]) ==> Backed(log, e) }

  lemma StillBacked(log: Log, more: Log)
    requires AllBacked(log) && log <= more
    requires forall k :: |log| <= k < |more| ==> !Claims(more[k])
    ensures AllBacked(more)
  {
    forall e: nat | e < |more| && Claims(more[e]) ensures Backed(more, e) {
      assert more[e] == log[e] && Backed(log, e);
      assert more[log[e].action] == log[log[e].action] && more[e - 2] == log[e - 2];
    }
  }

  lemma OneMore(log: Log, e: Event)
    requires AllBacked(log) && (Claims(e) ==> Backed(log + [e], |log|))
    ensures AllBacked(log + [e])
  {
    var more := log + [e];
    forall k: nat | k < |more| && Claims(more[k]) ensures Backed(more, k) {
      if k < |log| {
        assert more[k] == log[k] && Backed(log, k);
        assert more[log[k].action] == log[log[k].action] && more[k - 2] == log[k - 2];
      }
    }
  }

  lemma ReapBacked(env: Env, log: Log, id: ActionId, item: Item)
    requires AllBacked(log) && id < |log| && log[id].Inserted? && log[id].item == item
    ensures AllBacked(Reap(env, log, id, item))
  {
    var (log1, ok) := Attempt(env, log, id, Torrent(item.hash), MAX_ATTEMPTS);
    AttemptAppends(env, log, id, Torrent(item.hash), MAX_ATTEMPTS);
    var log2 := Audit(env, log1, QbitRow(id, ok));
    StillBacked(log, log2);
    assert log2[id] == log[id] && log2[|log2| - 2] == log1[|log1| - 1];
    if !ok {
      OneMore(log2, Finished(id, FailedQbit, 0, env.stored(|log2|)));
    } else {
      var done := Finished(id, Succeeded, item.size, env.stored(|log2|));
      var log3 := log2 + [done];
      assert log3[id] == log2[id] && log3[|log2| - 2] == log2[|log2| - 2];
      OneMore(log2, done);
      OneMore(log3, Forgot(id, env.stored(|log3|)));
    }
  }

  lemma SettleBacked(env: Env, log: Log, id: ActionId, item: Item)
    requires AllBacked(log) && id < |log| && log[id].Inserted? && log[id].item == item
    ensures AllBacked(CheckAndSettle(env, log, id, item))
  {
    var (log1, v) := CheckNlink(env, log, id);
    CheckAppends(env, log, id);
    StillBacked(log, log1);
    assert log1[id] == log[id];
    match v
    case CheckFailed => OneMore(log1, Finished(id, AbortedNlinkCheck, 0, env.stored(|log1|)));
    case Conflict => OneMore(log1, Finished(id, SkippedCrossSeed, 0, env.stored(|log1|)));
    case Clear => ReapBacked(env, log1, id, item);
  }

  lemma CandidateBacked(env: Env, log: Log, item: Item)
    requires AllBacked(log)
    ensures AllBacked(Candidate(env, log, item))
  {
    var id := |log|;
    var log1 := log + [Inserted(item, env.stored(|log|))];
    StillBacked(log, log1);
    if env.stored(|log|) {
      var links := env.links(|log1|);
      var log2 := log1 + [LinksRead(id, links)];
      StillBacked(log1, log2);
      if links == None {
        var log3 := Audit(env, log2, Row(id, ArrDelete, "", 0, Failed));
        StillBacked(log2, log3);
        OneMore(log3, Finished(id, AbortedArrFail, 0, env.stored(|log3|)));
      } else {
        var (log3, ok) := Fanout(env, log2, id, links.value);
        FanoutAppends(env, log2, id, links.value);
        StillBacked(log2, log3);
        assert log3[id] == log2[id];
        if ok { SettleBacked(env, log3, id, item); } else {
          OneMore(log3, Finished(id, AbortedArrFail, 0, env.stored(|log3|)));
        }
      }
    }
  }

  /** In every run, under every failure, every claim is backed. */
  lemma EveryClaimIsBacked(env: Env, limit: int)
    ensures AllBacked(ExecuteLog(env, limit))
  {
    var run := env.run(0);
    if run != None && Allowed(run.value) && env.stored(1) {
      var log, items := [RunRead(run)] + [RunMarked(Running, env.stored(1))], run.value.items;
      var inv := (l: Log, k: nat) => AllBacked(l);
      forall l: Log, k: nat | k < |items| && inv(l, k) ensures inv(Candidate(env, l, items[k]), k + 1) {
        CandidateBacked(env, l, items[k]);
      }
      LoopKeeps(env, log, items, limit, 0, inv);
      var (log2, _, stopped) := Loop(env, log, items, limit, 0);
      OneMore(log2, RunMarked(if stopped then Stopped else Completed, env.stored(|log2|)));
    }
  }

  // ---------------------------------------------------------------- what a delete frees

  ghost function Present(fs: FS, paths: set<Path>): set<Path> { set p | p in paths && p in fs.names }

  ghost function Missing(fs: FS, paths: set<Path>): set<Path> { set p | p in paths && p !in fs.names }

  /** The bytes that removing the paths frees. */
  ghost function FreedBy(fs: FS, paths: set<Path>): int { fs.Used() - fs.Without(paths).Used() }

  /** The bytes behind a name. */
  ghost function OnDisk(fs: FS): Path -> int {
    (p: Path) => if p in fs.names then fs.size(fs.names[p]) as int else 0
  }

  ghost function Bytes(fs: FS): Inode -> int { (i: Inode) => fs.size(i) as int }

  ghost function Lengths(length: Path -> nat): Path -> int { (p: Path) => length(p) as int }

  lemma InodesWithout(fs: FS, ps: set<Path>, p: Path)
    requires ps <= fs.names.Keys && p in ps
    requires forall q :: q in ps && fs.names[p] == fs.names[q] ==> p == q
    ensures fs.names[p] in Inodes(fs, ps) && Inodes(fs, ps) - {fs.names[p]} == Inodes(fs, ps - {p})
  {
    var i := fs.names[p];
    forall j ensures j in Inodes(fs, ps) - {i} <==> j in Inodes(fs, ps - {p}) {
      if j in Inodes(fs, ps) - {i} {
        var q :| q in ps && fs.names[q] == j;
        assert q in ps - {p};
      }
    }
  }

  /** Names of different inodes add up as their inodes do. */
  lemma {:induction false} SumOfNames(fs: FS, ps: set<Path>)
    requires ps <= fs.names.Keys
    requires forall p, q :: p in ps && q in ps && fs.names[p] == fs.names[q] ==> p == q
    ensures Sum(Inodes(fs, ps), Bytes(fs)) == Sum(ps, OnDisk(fs))
    decreases |ps|
  {
    if ps == {} {
      assert Inodes(fs, ps) == {};
    } else {
      var p :| p in ps;
      var rest := ps - {p};
      SumOfNames(fs, rest);
      InodesWithout(fs, ps, p);
      SumTakeOut(ps, OnDisk(fs), p);
      SumTakeOut(Inodes(fs, ps), Bytes(fs), fs.names[p]);
    }
  }

  /** Removing files that are absent or singly linked frees the bytes of those that are there. */
  lemma FreedIsPresent(fs: FS, paths: set<Path>)
    requires forall p :: p in paths ==> Safe(fs.Stat(p))
    ensures FreedBy(fs, paths) == Sum(Present(fs, paths), OnDisk(fs))
  {
    RemovalIsHarmless(fs, paths);
    assert Inodes(fs, paths) == Inodes(fs, Present(fs, paths));
    SumSame(Inodes(fs, paths), i => fs.size(i), Bytes(fs));
    SumOfNames(fs, Present(fs, paths));
  }

  lemma {:induction false} ZeroExactly(ps: set<Path>, length: Path -> nat)
    ensures Sum(ps, Lengths(length)) >= 0
    ensures Sum(ps, Lengths(length)) == 0 <==> forall p :: p in ps ==> length(p) == 0
    decreases |ps|
  {
    if ps != {} {
      var p :| p in ps;
      SumTakeOut(ps, Lengths(length), p);
      ZeroExactly(ps - {p}, length);
      assert forall q :: q in ps <==> q in ps - {p} || q == p;
    }
  }

  /** The size was recorded as the total of the files' lengths, and what is there still has them. */
  ghost predicate Recorded(fs: FS, paths: set<Path>, length: Path -> nat, size: int) {
    && size == Sum(paths, Lengths(length))
    && forall p :: p in Present(fs, paths) ==> fs.size(fs.names[p]) == length(p)
  }

  /** Then the claim exceeds what is freed by the lengths of the missing files. */
  ghost predicate Differs(fs: FS, paths: set<Path>, length: Path -> nat, size: int) {
    && size - FreedBy(fs, paths) == Sum(Missing(fs, paths), Lengths(length))
    && (size == FreedBy(fs, paths) <==> forall p :: p in Missing(fs, paths) ==> length(p) == 0)
  }

  lemma MissingIsTheDifference(fs: FS, paths: set<Path>, length: Path -> nat, size: int)
    requires (forall p :: p in paths ==> Safe(fs.Stat(p))) && Recorded(fs, paths, length, size)
    ensures Differs(fs, paths, length, size)
  {
    FreedIsPresent(fs, paths);
    SumSame(Present(fs, paths), OnDisk(fs), Lengths(length));
    SumSplit(Present(fs, paths), Missing(fs, paths), Lengths(length));
    assert paths == Present(fs, paths) + Missing(fs, paths);
    ZeroExactly(Missing(fs, paths), length);
  }

  // ---------------------------------------------------------------- claims and bytes in a run

  /** The check behind the claim, and, if nobody else changed the volume from its first stat to the
      delete, how far the claim is from the bytes freed. */
  ghost predicate Accounted(env: Env, log: Log, e: nat, f: nat, dir: Path, files: seq<string>, length: Path -> nat)
    requires e < |log| && Claims(log[e]) && Backed(log, e)
  {
    var k, paths := e - 2, PathsOf(dir, files);
    && Checked(env, log, f, log[e].action, dir, files) && f + |files| <= k
    && ((forall n :: f <= n <= k ==> env.fs(n) == env.fs(k)) && Recorded(env.fs(k), paths, length, log[e].freed)
        ==> Differs(env.fs(k), paths, length, log[e].freed))
  }

  lemma SafeThroughout(env: Env, log: Log, k: nat, f: nat, id: ActionId, dir: Path, files: seq<string>)
    requires Checked(env, log, f, id, dir, files) && f + |files| <= k
    requires forall n :: f <= n <= k ==> env.fs(n) == env.fs(k)
    ensures forall p :: p in PathsOf(dir, files) ==> Safe(env.fs(k).Stat(p))
  {
    forall p | p in PathsOf(dir, files) ensures Safe(env.fs(k).Stat(p)) {
      var i :| 0 <= i < |files| && p == Join(dir, files[i]);
      assert FileSafe(env, log, f + i, f, id, dir, files);
    }
  }

  /** Of every claim of every run: it is the recorded size, and agrees with the bytes its delete
      frees if and only if every listed file that was missing is empty. */
  lemma ClaimAgreesExactly(env: Env, limit: int, e: nat, length: Path -> nat)
    requires e < |ExecuteLog(env, limit)| && Claims(ExecuteLog(env, limit)[e])
    ensures Backed(ExecuteLog(env, limit), e)
    ensures exists f: nat, dir, files :: Accounted(env, ExecuteLog(env, limit), e, f, dir, files, length)
  {
    var log, k := ExecuteLog(env, limit), e - 2;
    EveryClaimIsBacked(env, limit);
    assert Backed(log, e);
    EveryReapIsJustified(env, limit);
    var l: nat, f: nat, links, dir, files :| JustifiedBy(env, log, k, l, f, links, dir, files);
    var fs, paths := env.fs(k), PathsOf(dir, files);
    if (forall n :: f <= n <= k ==> env.fs(n) == fs) && Recorded(fs, paths, length, log[e].freed) {
      SafeThroughout(env, log, k, f, log[e].action, dir, files);
      MissingIsTheDifference(fs, paths, length, log[e].freed);
    }
    assert Accounted(env, log, e, f, dir, files, length);
  }

  // ---------------------------------------------------------------- a claim of bytes that are not there

  /** One planned item, no *arr link, one listed file, an empty volume, and nothing fails. */
  function Gone(item: Item, dir: Path, file: string): Env {
    Env(n => Some(RunRecord(true, HTTP, [item])), n => true, n => Some([]), n => Ok, n => Some(dir), n => Some([file]),
        n => FS(map[], i => 0), n => false, n => false, k => true)
  }

  lemma GoneChecked(item: Item, dir: Path, file: string, log: Log, id: ActionId)
    ensures var r := CheckNlink(Gone(item, dir, file), log, id);
      r.1 == Clear && log <= r.0
  {
    var env := Gone(item, dir, file);
    CheckAppends(env, log, id);
    var at := log + [SavePathRead(id, Some(dir))] + [FilesRead(id, Some([file]))];
    assert [file][1..] == [];
    assert Sweep(env, at, id, dir, [file]) == (at + [Stated(id, Join(dir, file), Absent)], Clear);
  }

  lemma GoneReaped(item: Item, dir: Path, file: string, log: Log, id: ActionId)
    ensures exists e: nat :: var r := Reap(Gone(item, dir, file), log, id, item);
      e < |r| && r[e] == Finished(id, Succeeded, item.size, true)
  {
    var env := Gone(item, dir, file);
    var r := Reap(env, log, id, item);
    assert r[|log| + 2] == Finished(id, Succeeded, item.size, true);
  }

  /** So the claim can be of bytes that nobody freed: every file was gone before. */
  lemma ClaimWithoutFreeing(item: Item, dir: Path, file: string)
    ensures var env := Gone(item, dir, file);
      var log := ExecuteLog(env, 0);
      && (exists e: nat :: e < |log| && Claims(log[e]) && log[e].freed == item.size)
      && forall n, paths :: FreedBy(env.fs(n), paths) == 0
  {
    var env := Gone(item, dir, file);
    var log := [RunRead(env.run(0))] + [RunMarked(Running, true)];
    var id := |log|;
    var log2 := log + [Inserted(item, true)] + [LinksRead(id, Some([]))];
    GoneChecked(item, dir, file, log2, id);
    var log3 := CheckNlink(env, log2, id).0;
    GoneReaped(item, dir, file, log3, id);
    var r := Reap(env, log3, id, item);
    assert Candidate(env, log, item) == r;
    assert Loop(env, r, [item], 0, 1) == (r, 1, false);
    assert Loop(env, log, [item], 0, 0) == (r, 1, false);
    var e: nat :| e < |r| && r[e] == Finished(id, Succeeded, item.size, true);
    assert ExecuteLog(env, 0) == r + [RunMarked(Completed, true)];
    assert ExecuteLog(env, 0)[e] == r[e];
    forall n, paths ensures FreedBy(env.fs(n), paths) == 0 {
      assert env.fs(n).Without(paths).names == env.fs(n).names;
    }
  }
}
