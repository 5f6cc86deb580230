/** What a plan elects, spelled out on the paths, link counts and torrents the store answers with. */
module PlanMeaning {
  import opened Basics
  import opened Planner

  /** `s` without the slashes it ends with. */
  predicate Stripped(s: string, t: string) {
    && t <= s && (t == "" || t[|t| - 1] != '/')
    && forall i :: |t| <= i < |s| ==> s[i] == '/'
  }

  lemma NotLonger(s: string, t: string, u: string)
    requires Stripped(s, t) && Stripped(s, u)
    ensures |u| <= |t|
  {
    if u != "" { assert s[|u| - 1] == u[|u| - 1]; }
  }

  lemma StrippedIs(s: string, t: string)
    requires Stripped(s, t)
    ensures TrimRightSlash(s) == t
  {
    NotLonger(s, t, TrimRightSlash(s));
    NotLonger(s, TrimRightSlash(s), t);
  }

  /** A torrent is on the volume exactly when its save path is the volume's path or goes on from
      it with a slash, whatever slashes either of them ends with. */
  lemma InScopeExactly(v: Volume, path: string, savePath: string)
    requires Stripped(v.path, path)
    ensures InScope(v, savePath) <==> savePath == path || path + "/" <= savePath
  {
    StrippedIs(v.path, path);
    var sp := TrimRightSlash(savePath);
    if path + "/" <= savePath { BelowOrSame(path, savePath, sp); }
    if sp == path && savePath != path { assert savePath[|path|] == '/'; }
    if path + "/" <= sp { assert path + "/" <= savePath; }
  }

  lemma NotShorter(path: string, savePath: string, sp: string)
    requires path <= savePath && Stripped(savePath, sp) && (path == "" || path[|path| - 1] != '/')
    ensures |path| <= |sp|
  {
    if path != "" { assert savePath[|path| - 1] == path[|path| - 1]; }
  }

  lemma BelowOrSame(path: string, savePath: string, sp: string)
    requires path + "/" <= savePath && Stripped(savePath, sp) && (path == "" || path[|path| - 1] != '/')
    ensures sp == path || path + "/" <= sp
  {
    var below := path + "/";
    assert path == below[..|path|] == savePath[..|path|];
    NotShorter(path, savePath, sp);
    if |sp| > |path| { assert sp[..|below|] == savePath[..|below|]; }
  }

  /** The torrent recorded for a hash: the last row of it that the store lists. */
  ghost predicate Recorded(torrents: seq<TorrentBasic>, t: TorrentBasic) {
    exists i :: LastRow(torrents, i, t.hash) && torrents[i] == t
  }

  predicate LastRow(torrents: seq<TorrentBasic>, i: int, h: Hash) {
    0 <= i < |torrents| && torrents[i].hash == h && forall j :: i < j < |torrents| ==> torrents[j].hash != h
  }

  lemma {:induction false} LookupFinds(torrents: seq<TorrentBasic>, h: Hash) returns (i: int)
    ensures h in ByHash(torrents) ==> LastRow(torrents, i, h) && torrents[i] == ByHash(torrents)[h]
    ensures h !in ByHash(torrents) ==> forall j :: 0 <= j < |torrents| ==> torrents[j].hash != h
  {
    i := |torrents| - 1;
    if torrents != [] && torrents[i].hash != h {
      i := LookupFinds(torrents[..|torrents| - 1], h);
    }
  }

  /** Looking a hash up finds the torrent recorded for it. */
  lemma LookupExactly(torrents: seq<TorrentBasic>, h: Hash, t: TorrentBasic)
    ensures h in ByHash(torrents) && ByHash(torrents)[h] == t <==> t.hash == h && Recorded(torrents, t)
  {
    var i := LookupFinds(torrents, h);
    if h in ByHash(torrents) && ByHash(torrents)[h] == t { assert LastRow(torrents, i, t.hash); }
    if t.hash == h && Recorded(torrents, t) {
      var j :| LastRow(torrents, j, h) && torrents[j] == t;
      assert torrents[j].hash == h;
      assert LastRow(torrents, i, h);
      assert i == j;
    }
  }

  /** The torrent of this row may be elected: it is recorded on the volume, and no sampled file of
      it has a name more than the client's and, if an *arr imported it, the library's. */
  ghost predicate MayElect(src: Source, path: string, h: Hash, t: TorrentBasic)
    requires src.torrents.Some? && src.nlink.Some? && src.arrImports.Some?
  {
    && t.hash == h && Recorded(src.torrents.value, t)
    && (t.savePath == path || path + "/" <= t.savePath)
    && (h in src.nlink.value ==> src.nlink.value[h] <= if h in src.arrImports.value then 2 else 1)
  }

  ghost predicate MayBeElected(src: Source, path: string, h: Hash)
    requires src.torrents.Some? && src.nlink.Some? && src.arrImports.Some?
  {
    exists t :: MayElect(src, path, h, t)
  }

  ghost function LibraryOf(src: Source, v: Volume): Library
    requires src.torrents.Some? && src.nlink.Some? && src.arrImports.Some?
  {
    Library(v, ByHash(src.torrents.value), src.nlink.value, src.arrImports.value)
  }

  lemma ElectableExactly(src: Source, v: Volume, path: string, row: ScoreRow)
    requires src.torrents.Some? && src.nlink.Some? && src.arrImports.Some? && Stripped(v.path, path)
    ensures Electable(LibraryOf(src, v), row) <==> MayBeElected(src, path, row.hash)
    ensures forall t :: MayElect(src, path, row.hash, t) ==> SizeOf(LibraryOf(src, v).byHash, row.hash) == t.size
  {
    var lib := LibraryOf(src, v);
    forall t ensures MayElect(src, path, row.hash, t) <==>
      Electable(lib, row) && row.hash in lib.byHash && lib.byHash[row.hash] == t
    {
      LookupExactly(src.torrents.value, row.hash, t);
      InScopeExactly(v, path, t.savePath);
    }
    if Electable(lib, row) { assert MayElect(src, path, row.hash, lib.byHash[row.hash]); }
  }

  /** What electing the row would free; zero when it may not be elected. */
  ghost function Frees(src: Source, path: string, h: Hash): int
    requires src.torrents.Some? && src.nlink.Some? && src.arrImports.Some?
  {
    if MayBeElected(src, path, h) then
      var t :| MayElect(src, path, h, t);
      t.size
    else 0
  }

  ghost function FreesAll(src: Source, path: string, rows: seq<ScoreRow>): int
    requires src.torrents.Some? && src.nlink.Some? && src.arrImports.Some?
  {
    if rows == [] then 0 else
    FreesAll(src, path, rows[..|rows| - 1]) + Frees(src, path, rows[|rows| - 1].hash)
  }

  /** The need is not covered before row `n`, nor was it anywhere before. */
  ghost predicate StillNeeded(src: Source, path: string, rows: seq<ScoreRow>, need: int, n: nat)
    requires src.torrents.Some? && src.nlink.Some? && src.arrImports.Some?
    requires n <= |rows|
  {
    forall j :: 0 <= j <= n ==> FreesAll(src, path, rows[..j]) < need
  }

  /** How many of the first rows may be elected. */
  ghost function Eligible(src: Source, path: string, rows: seq<ScoreRow>): nat
    requires src.torrents.Some? && src.nlink.Some? && src.arrImports.Some?
  {
    if rows == [] then 0 else
    Eligible(src, path, rows[..|rows| - 1])
    + if MayBeElected(src, path, rows[|rows| - 1].hash) then 1 else 0
  }

  lemma FreesSize(src: Source, v: Volume, path: string, row: ScoreRow)
    requires src.torrents.Some? && src.nlink.Some? && src.arrImports.Some? && Stripped(v.path, path)
    ensures var lib := LibraryOf(src, v);
      && (Electable(lib, row) <==> MayBeElected(src, path, row.hash))
      && Frees(src, path, row.hash) == if Electable(lib, row) then SizeOf(lib.byHash, row.hash) else 0
  {
    ElectableExactly(src, v, path, row);
  }

  lemma {:induction false} CandidatesMean(src: Source, v: Volume, path: string, rows: seq<ScoreRow>)
    requires src.torrents.Some? && src.nlink.Some? && src.arrImports.Some? && Stripped(v.path, path)
    ensures var lib := LibraryOf(src, v);
      && |Candidates(lib, rows)| == Eligible(src, path, rows)
      && TotalSize(lib.byHash, Candidates(lib, rows)) == FreesAll(src, path, rows)
    decreases |rows|
  {
    if rows != [] {
      var n := |rows| - 1;
      var lib := LibraryOf(src, v);
      var init := Candidates(lib, rows[..n]);
      CandidatesMean(src, v, path, rows[..n]);
      FreesSize(src, v, path, rows[n]);
      if Electable(lib, rows[n]) {
        assert (init + [rows[n]])[..|init|] == init;
      } else {
        assert Candidates(lib, rows) == init;
      }
    }
  }

  /** The item is the one of this row: its rank, name and score, and the size of its torrent. */
  ghost predicate ItemFor(src: Source, path: string, i: RunItem, rank: nat, row: ScoreRow)
    requires src.torrents.Some? && src.nlink.Some? && src.arrImports.Some?
  {
    && i.rank == rank && i.hash == row.hash && i.name == row.name && i.score == row.score
    && exists t :: MayElect(src, path, row.hash, t) && i.sizeBytes == t.size && i.wouldFreeBytes == t.size
  }

  lemma ItemIsFor(src: Source, v: Volume, path: string, row: ScoreRow, rank: nat)
    requires src.torrents.Some? && src.nlink.Some? && src.arrImports.Some? && Stripped(v.path, path)
    requires Electable(LibraryOf(src, v), row)
    ensures ItemFor(src, path, ItemOf(LibraryOf(src, v).byHash, row, rank), rank, row)
  {
    ElectableExactly(src, v, path, row);
    var t :| MayElect(src, path, row.hash, t);
  }

  /** The candidates among the first rows are the first of the candidates. */
  lemma FirstCandidates(lib: Library, rows: seq<ScoreRow>, j: nat)
    requires j <= |rows|
    ensures var c, p := Candidates(lib, rows), |Candidates(lib, rows[..j])|;
            p <= |c| && Candidates(lib, rows[..j]) == c[..p]
  {
    CandidatesPrefix(lib, rows, j);
  }

  /** The count of candidates takes every value on its way. */
  lemma {:induction false} CountReaches(lib: Library, rows: seq<ScoreRow>, n: nat, m: nat) returns (j: nat)
    requires n <= |rows| && m <= |Candidates(lib, rows[..n])|
    ensures j <= n && |Candidates(lib, rows[..j])| == m
    decreases n
  {
    j := n;
    if |Candidates(lib, rows[..n])| > m {
      CandidatesStep(lib, rows, n - 1);
      j := CountReaches(lib, rows, n - 1, m);
    }
  }

  /** Item `k` of an exact and minimal plan exists when no stretch of at most `n` rows covered the
      need, `k` being the count of candidates among them; and only then. */
  lemma ItemWhileNeeded(src: Source, v: Volume, path: string, rows: seq<ScoreRow>, need: int, plan: RunPlan, n: nat)
    requires src.torrents.Some? && src.nlink.Some? && src.arrImports.Some? && Stripped(v.path, path)
    requires n < |rows| && Electable(LibraryOf(src, v), rows[n])
    requires ExactAndMinimal(LibraryOf(src, v).byHash, Candidates(LibraryOf(src, v), rows), need, plan)
    ensures |Candidates(LibraryOf(src, v), rows[..n])| < |plan.items| <==> StillNeeded(src, path, rows, need, n)
  {
    var lib, m := LibraryOf(src, v), |plan.items|;
    var c, p := Candidates(lib, rows), |Candidates(lib, rows[..n])|;
    CandidatesStep(lib, rows, n);
    FirstCandidates(lib, rows, n + 1);
    if p < m {
      forall j | 0 <= j <= n ensures FreesAll(src, path, rows[..j]) < need {
        CandidatesGrow(lib, rows, j, n);
        FirstCandidates(lib, rows, j);
        CandidatesMean(src, v, path, rows[..j]);
      }
    } else {
      var j := CountReaches(lib, rows, n, m);
      FirstCandidates(lib, rows, j);
      CandidatesMean(src, v, path, rows[..j]);
      assert plan.stopReason == TargetReached;
      assert FreesAll(src, path, rows[..j]) >= need;
    }
  }

  lemma CandidateAt(lib: Library, rows: seq<ScoreRow>, n: nat)
    requires n < |rows| && Electable(lib, rows[n])
    ensures var k := |Candidates(lib, rows[..n])|; k < |Candidates(lib, rows)| && Candidates(lib, rows)[k] == rows[n]
  {
    CandidatesStep(lib, rows, n);
    FirstCandidates(lib, rows, n + 1);
  }

  /** A plan has an item for a row of the list exactly when the row may be elected and the rows
      before it that may be elected never covered the need; the item stands at the count of those
      rows and is this row's. */
  lemma ElectedExactly(src: Source, v: Volume, usage: DiskUsage, plan: RunPlan, path: string, n: nat)
    requires src.scores.Some? && src.torrents.Some? && src.nlink.Some? && src.arrImports.Some?
    requires Stripped(v.path, path) && GoodPlan(src, v, usage, plan) && n < |src.scores.value|
    requires MayBeElected(src, path, src.scores.value[n].hash)
    ensures var rows, need := src.scores.value, NeededBytes(usage.totalBytes, usage.freePercent, v.targetFreePercent);
      var k := Eligible(src, path, rows[..n]);
      && (k < |plan.items| <==> StillNeeded(src, path, rows, need, n))
      && (k < |plan.items| ==> ItemFor(src, path, plan.items[k], k, rows[n]))
  {
    var lib, rows := LibraryOf(src, v), src.scores.value;
    var need := NeededBytes(usage.totalBytes, usage.freePercent, v.targetFreePercent);
    ElectableExactly(src, v, path, rows[n]);
    ItemWhileNeeded(src, v, path, rows, need, plan, n);
    CandidatesMean(src, v, path, rows[..n]);
    CandidateAt(lib, rows, n);
    ItemIsFor(src, v, path, rows[n], Eligible(src, path, rows[..n]));
  }

  /** And it has no other items: each is that of a row that may be elected. */
  lemma NothingElseElected(src: Source, v: Volume, usage: DiskUsage, plan: RunPlan, path: string, k: nat)
    requires src.scores.Some? && src.torrents.Some? && src.nlink.Some? && src.arrImports.Some?
    requires Stripped(v.path, path) && GoodPlan(src, v, usage, plan) && k < |plan.items|
    ensures exists n :: 0 <= n < |src.scores.value| && ItemFor(src, path, plan.items[k], k, src.scores.value[n])
  {
    var lib, rows := LibraryOf(src, v), src.scores.value;
    var c := Candidates(lib, rows);
    CandidatesAre(lib, rows, c[k]);
    var n :| 0 <= n < |rows| && rows[n] == c[k];
    ItemIsFor(src, v, path, rows[n], k);
    assert plan.items[k] == ItemOf(lib.byHash, c[k], k);
  }

  lemma RanOut(src: Source, v: Volume, path: string, rows: seq<ScoreRow>, need: int, plan: RunPlan)
    requires src.torrents.Some? && src.nlink.Some? && src.arrImports.Some? && Stripped(v.path, path)
    requires ExactAndMinimal(LibraryOf(src, v).byHash, Candidates(LibraryOf(src, v), rows), need, plan)
    requires plan.stopReason == NoMoreCandidates
    ensures StillNeeded(src, path, rows, need, |rows|) && plan.estimatedFreedBytes == FreesAll(src, path, rows)
  {
    var lib := LibraryOf(src, v);
    var c := Candidates(lib, rows);
    assert c[..|c|] == c && rows[..|rows|] == rows;
    CandidatesMean(src, v, path, rows);
    forall j | 0 <= j <= |rows| ensures FreesAll(src, path, rows[..j]) < need {
      FirstCandidates(lib, rows, j);
      CandidatesMean(src, v, path, rows[..j]);
    }
  }

  lemma Reached(src: Source, v: Volume, path: string, rows: seq<ScoreRow>, need: int, plan: RunPlan) returns (j: nat)
    requires src.torrents.Some? && src.nlink.Some? && src.arrImports.Some? && Stripped(v.path, path)
    requires ExactAndMinimal(LibraryOf(src, v).byHash, Candidates(LibraryOf(src, v), rows), need, plan)
    requires plan.stopReason == TargetReached
    ensures j <= |rows| && FreesAll(src, path, rows[..j]) >= need
  {
    var lib := LibraryOf(src, v);
    assert rows[..|rows|] == rows;
    j := CountReaches(lib, rows, |rows|, |plan.items|);
    FirstCandidates(lib, rows, j);
    CandidatesMean(src, v, path, rows[..j]);
  }

  /** A plan reports that it ran out of candidates exactly when what may be elected never covers
      the need, and its estimate is then all of it.  It records the free share it was made for. */
  lemma RunsOutExactly(src: Source, v: Volume, usage: DiskUsage, plan: RunPlan, path: string)
    requires src.scores.Some? && src.torrents.Some? && src.nlink.Some? && src.arrImports.Some?
    requires Stripped(v.path, path) && GoodPlan(src, v, usage, plan)
    ensures var rows, need := src.scores.value, NeededBytes(usage.totalBytes, usage.freePercent, v.targetFreePercent);
      && (plan.stopReason == NoMoreCandidates <==> StillNeeded(src, path, rows, need, |rows|))
      && (plan.stopReason == NoMoreCandidates ==> plan.estimatedFreedBytes == FreesAll(src, path, rows))
    ensures plan.freePctAtFire == usage.freePercent
  {
    var need := NeededBytes(usage.totalBytes, usage.freePercent, v.targetFreePercent);
    if plan.stopReason == NoMoreCandidates {
      RanOut(src, v, path, src.scores.value, need, plan);
    } else {
      var j := Reached(src, v, path, src.scores.value, need, plan);
    }
  }
}
