/**
 The planner: how many bytes are needed, and which torrents, taken in score order, are
 elected to free them.
 */
module Planner {
  import opened Basics

  type Hash = string

  /** Hardlink ceiling for torrents an *arr imported; the others may have one name only. */
  const MAX_ALLOWED_NLINK := 2

  datatype Volume = Volume(path: string, targetFreePercent: real)
  datatype DiskUsage = DiskUsage(totalBytes: nat, freePercent: real)
  datatype ScoreRow = ScoreRow(hash: Hash, name: string, score: real)
  datatype TorrentBasic = TorrentBasic(hash: Hash, savePath: string, size: int)
  datatype RunItem = RunItem(rank: nat, hash: Hash, name: string, score: real, sizeBytes: int, wouldFreeBytes: int)
  datatype StopReason = TargetReached | NoMoreCandidates
  datatype RunPlan = RunPlan(
    freePctAtFire: real, estimatedFreedBytes: int, stopReason: StopReason,
    items: seq<RunItem>, filteredCrossSeed: nat)

  datatype PlanError = DiskUsageUnavailable | NoSnapshot | StoreFailed
  datatype PlanResult = Planned(plan: RunPlan) | Failed(error: PlanError)

  /** What the store answers; None stands for a failed query. */
  datatype Source = Source(
    usage: Option<Option<DiskUsage>>,
    scores: Option<seq<ScoreRow>>,
    torrents: Option<seq<TorrentBasic>>,
    nlink: Option<map<Hash, int>>,       // largest sampled link count per torrent
    arrImports: Option<set<Hash>>)

  // ---------------------------------------------------------------- bytes needed

  function NeededBytes(totalBytes: nat, freePct: real, targetPct: real): (need: int)
    ensures freePct >= targetPct ==> need == 0
    ensures freePct < targetPct ==>
      need as real <= totalBytes as real * (targetPct - freePct) / 100.0 < need as real + 1.0
    ensures need >= 0
  {
    if freePct >= targetPct then 0 else
    NonNegative(totalBytes, targetPct - freePct);
    (totalBytes as real * (targetPct - freePct) / 100.0).Floor
  }

  lemma NonNegative(n: nat, gap: real)
    requires gap > 0.0
    ensures n as real * gap / 100.0 >= 0.0
  {
  }

  // ---------------------------------------------------------------- scope

  function TrimRightSlash(s: string): (t: string)
    ensures t <= s && (t == "" || t[|t| - 1] != '/')
    ensures forall i :: |t| <= i < |s| ==> s[i] == '/'
    decreases |s|
  {
    if s != "" && s[|s| - 1] == '/' then TrimRightSlash(s[..|s| - 1]) else s
  }

  predicate HasPrefix(s: string, p: string) { p <= s }

  /** The torrent's save path is the volume's path or below it. */
  predicate InScope(v: Volume, savePath: string) {
    var volume := TrimRightSlash(v.path);
    var sp := TrimRightSlash(savePath);
    sp == volume || HasPrefix(sp, volume + "/")
  }

  function Ceiling(arrLinked: set<Hash>, h: Hash): int {
    if h in arrLinked then MAX_ALLOWED_NLINK else 1
  }

  predicate NlinkEligible(nlink: map<Hash, int>, arrLinked: set<Hash>, h: Hash) {
    h in nlink ==> nlink[h] <= Ceiling(arrLinked, h)
  }

  /** The lookup table by hash; a later row of the same hash wins. */
  function ByHash(torrents: seq<TorrentBasic>): map<Hash, TorrentBasic> {
    if torrents == [] then map[]
    else ByHash(torrents[..|torrents| - 1])[torrents[|torrents| - 1].hash := torrents[|torrents| - 1]]
  }

  /** What the walk consults: the volume, the torrents by hash, the largest sampled link
      count of each, and which torrents an *arr imported. */
  datatype Library = Library(
    volume: Volume, byHash: map<Hash, TorrentBasic>, nlink: map<Hash, int>, arrLinked: set<Hash>)

  predicate Scoped(lib: Library, row: ScoreRow) {
    row.hash in lib.byHash && InScope(lib.volume, lib.byHash[row.hash].savePath)
  }

  predicate Electable(lib: Library, row: ScoreRow) {
    Scoped(lib, row) && NlinkEligible(lib.nlink, lib.arrLinked, row.hash)
  }

  // ---------------------------------------------------------------- the plan

  /** The electable rows of a list, in order. */
  function Candidates(lib: Library, scores: seq<ScoreRow>): (c: seq<ScoreRow>)
    ensures |c| <= |scores|
  {
    if scores == [] then [] else
    var last := scores[|scores| - 1];
    Candidates(lib, scores[..|scores| - 1])
    + if Electable(lib, last) then [last] else []
  }

  function SizeOf(byHash: map<Hash, TorrentBasic>, h: Hash): int {
    if h in byHash then byHash[h].size else 0
  }

  function TotalSize(byHash: map<Hash, TorrentBasic>, rows: seq<ScoreRow>): int {
    if rows == [] then 0
    else TotalSize(byHash, rows[..|rows| - 1]) + SizeOf(byHash, rows[|rows| - 1].hash)
  }

  function ItemOf(byHash: map<Hash, TorrentBasic>, row: ScoreRow, rank: nat): RunItem {
    RunItem(rank, row.hash, row.name, row.score, SizeOf(byHash, row.hash), SizeOf(byHash, row.hash))
  }

  /** The items of a plan are the first of the candidates, ranked 0, 1, 2, ... */
  ghost predicate IsPrefixPlan(byHash: map<Hash, TorrentBasic>, candidates: seq<ScoreRow>, items: seq<RunItem>)
  {
    && |items| <= |candidates|
    && forall k :: 0 <= k < |items| ==> items[k] == ItemOf(byHash, candidates[k], k)
  }

  /** Membership: what is elected is in the list and electable. */
  lemma {:induction false} CandidatesAre(lib: Library, scores: seq<ScoreRow>, r: ScoreRow)
    ensures r in Candidates(lib, scores) <==> r in scores && Electable(lib, r)
    decreases |scores|
  {
    if scores != [] {
      CandidatesAre(lib, scores[..|scores| - 1], r);
      assert scores == scores[..|scores| - 1] + [scores[|scores| - 1]];
    }
  }

  /** A plan that is exact and minimal for `need`: the shortest prefix of the candidates
      that reaches it, or all of them when none does. */
  ghost predicate ExactAndMinimal(
    byHash: map<Hash, TorrentBasic>, candidates: seq<ScoreRow>, need: int, plan: RunPlan)
  {
    var n := |plan.items|;
    && IsPrefixPlan(byHash, candidates, plan.items)
    && plan.estimatedFreedBytes == TotalSize(byHash, candidates[..n])
    && (forall k :: 0 <= k < n ==> TotalSize(byHash, candidates[..k]) < need)
    && (plan.stopReason == TargetReached ==> plan.estimatedFreedBytes >= need)
    && (plan.stopReason == NoMoreCandidates ==> n == |candidates| && plan.estimatedFreedBytes < need)
  }

  /** Rows of `scores` in scope, in order: what the link-count query is asked about. */
  function ScopedHashes(lib: Library, scores: seq<ScoreRow>): seq<Hash> {
    if scores == [] then [] else
    var last := scores[|scores| - 1];
    ScopedHashes(lib, scores[..|scores| - 1]) + if Scoped(lib, last) then [last.hash] else []
  }

  lemma {:induction false} ScopedAreAsked(lib: Library, scores: seq<ScoreRow>)
    ensures forall r :: r in scores && Scoped(lib, r) ==> r.hash in ScopedHashes(lib, scores)
  {
    if scores != [] {
      var n := |scores| - 1;
      ScopedAreAsked(lib, scores[..n]);
      assert scores == scores[..n] + [scores[n]];
    }
  }

  lemma CandidatesStep(lib: Library, scores: seq<ScoreRow>, i: nat)
    requires i < |scores|
    ensures Candidates(lib, scores[..i + 1])
            == Candidates(lib, scores[..i])
               + if Electable(lib, scores[i]) then [scores[i]] else []
  {
    assert scores[..i + 1][..i] == scores[..i];
  }

  lemma {:induction false} CandidatesPrefix(lib: Library, scores: seq<ScoreRow>, i: nat)
    requires i <= |scores|
    ensures Candidates(lib, scores[..i]) <= Candidates(lib, scores)
    decreases |scores| - i
  {
    if i == |scores| {
      assert scores[..i] == scores;
    } else {
      CandidatesStep(lib, scores, i);
      CandidatesPrefix(lib, scores, i + 1);
    }
  }

  /** The plan made when the walk stopped after `seen` is exact and minimal for any
      candidate list that `seen` begins. */
  lemma StoppedPlan(byHash: map<Hash, TorrentBasic>, all: seq<ScoreRow>, seen: seq<ScoreRow>,
                    need: int, plan: RunPlan)
    requires seen <= all && IsPrefixPlan(byHash, seen, plan.items) && |plan.items| == |seen|
    requires plan.estimatedFreedBytes == TotalSize(byHash, seen)
    requires forall k :: 0 <= k < |seen| ==> TotalSize(byHash, seen[..k]) < need
    requires if plan.stopReason == TargetReached then plan.estimatedFreedBytes >= need
             else seen == all && plan.estimatedFreedBytes < need
    ensures ExactAndMinimal(byHash, all, need, plan)
  {
    assert all[..|seen|] == seen;
    forall k | 0 <= k < |seen| ensures TotalSize(byHash, all[..k]) < need {
      assert all[..k] == seen[..k];
    }
  }

  method IndexByHash(torrents: seq<TorrentBasic>) returns (byHash: map<Hash, TorrentBasic>)
    ensures byHash == ByHash(torrents)
  {
    byHash := map[];
    for i := 0 to |torrents|
      invariant byHash == ByHash(torrents[..i])
    {
      assert torrents[..i + 1][..i] == torrents[..i];
      byHash := byHash[torrents[i].hash := torrents[i]];
    }
    assert torrents[..|torrents|] == torrents;
  }

  method CollectScoped(lib: Library, scores: seq<ScoreRow>)
    returns (hashes: seq<Hash>)
    ensures hashes == ScopedHashes(lib, scores)
  {
    hashes := [];
    for i := 0 to |scores|
      invariant hashes == ScopedHashes(lib, scores[..i])
    {
      assert scores[..i + 1][..i] == scores[..i];
      if Scoped(lib, scores[i]) {
        hashes := hashes + [scores[i].hash];
      }
    }
    assert scores[..|scores|] == scores;
  }

  /** All the rows of `seen` are elected, each while the need was not yet covered. */
  ghost predicate Greedy(byHash: map<Hash, TorrentBasic>, seen: seq<ScoreRow>, need: int,
                         items: seq<RunItem>, estimate: int)
    decreases |seen|
  {
    if seen == [] then items == [] && estimate == 0 else
    var n := |seen| - 1;
    var before := estimate - SizeOf(byHash, seen[n].hash);
    && |items| == |seen| && items[n] == ItemOf(byHash, seen[n], n) && before < need
    && Greedy(byHash, seen[..n], need, items[..n], before)
  }

  lemma {:induction false} GreedyItems(byHash: map<Hash, TorrentBasic>, seen: seq<ScoreRow>, need: int,
                                       items: seq<RunItem>, estimate: int, k: nat)
    requires Greedy(byHash, seen, need, items, estimate) && k < |seen|
    ensures |items| == |seen| && items[k] == ItemOf(byHash, seen[k], k)
    decreases |seen|
  {
    var n := |seen| - 1;
    if k < n { GreedyItems(byHash, seen[..n], need, items[..n], estimate - SizeOf(byHash, seen[n].hash), k); }
  }

  lemma {:induction false} GreedyTotal(byHash: map<Hash, TorrentBasic>, seen: seq<ScoreRow>, need: int,
                                       items: seq<RunItem>, estimate: int)
    requires Greedy(byHash, seen, need, items, estimate)
    ensures estimate == TotalSize(byHash, seen)
    decreases |seen|
  {
    if seen != [] {
      var n := |seen| - 1;
      GreedyTotal(byHash, seen[..n], need, items[..n], estimate - SizeOf(byHash, seen[n].hash));
    }
  }

  lemma {:induction false} GreedyShort(byHash: map<Hash, TorrentBasic>, seen: seq<ScoreRow>, need: int,
                                       items: seq<RunItem>, estimate: int, k: nat)
    requires Greedy(byHash, seen, need, items, estimate) && k < |seen|
    ensures TotalSize(byHash, seen[..k]) < need
    decreases |seen|
  {
    var n := |seen| - 1;
    var before := estimate - SizeOf(byHash, seen[n].hash);
    if k == n {
      GreedyTotal(byHash, seen[..n], need, items[..n], before);
    } else {
      GreedyShort(byHash, seen[..n], need, items[..n], before, k);
      assert seen[..n][..k] == seen[..k];
    }
  }

  lemma GreedyMeans(byHash: map<Hash, TorrentBasic>, seen: seq<ScoreRow>, need: int,
                    items: seq<RunItem>, estimate: int)
    requires Greedy(byHash, seen, need, items, estimate)
    ensures |items| == |seen| && IsPrefixPlan(byHash, seen, items)
    ensures estimate == TotalSize(byHash, seen)
    ensures forall k :: 0 <= k < |seen| ==> TotalSize(byHash, seen[..k]) < need
  {
    GreedyTotal(byHash, seen, need, items, estimate);
    forall k | 0 <= k < |seen| ensures items[k] == ItemOf(byHash, seen[k], k) {
      GreedyItems(byHash, seen, need, items, estimate, k);
    }
    forall k | 0 <= k < |seen| ensures TotalSize(byHash, seen[..k]) < need {
      GreedyShort(byHash, seen, need, items, estimate, k);
    }
  }

  lemma GreedyStep(byHash: map<Hash, TorrentBasic>, seen: seq<ScoreRow>, need: int,
                   items: seq<RunItem>, estimate: int, row: ScoreRow, item: RunItem)
    requires Greedy(byHash, seen, need, items, estimate) && estimate < need && |items| == |seen|
    requires item == ItemOf(byHash, row, |items|)
    ensures Greedy(byHash, seen + [row], need, items + [item], estimate + item.sizeBytes)
  {
    assert (seen + [row])[..|seen|] == seen && (items + [item])[..|items|] == items;
  }

  lemma ScopedStep(lib: Library, scores: seq<ScoreRow>, i: nat)
    requires i < |scores|
    ensures |ScopedHashes(lib, scores[..i + 1])|
            == |ScopedHashes(lib, scores[..i])| + if Scoped(lib, scores[i]) then 1 else 0
  {
    assert scores[..i + 1][..i] == scores[..i];
  }

  /** The walk down the list, broken off after `w` rows by the row that reached the need, or
      finished without reaching it. */
  ghost predicate Walked(lib: Library, scores: seq<ScoreRow>, need: int, items: seq<RunItem>, estimate: int,
                         filtered: nat, reached: bool, w: nat)
  {
    && w <= |scores|
    && Greedy(lib.byHash, Candidates(lib, scores[..w]), need, items, estimate)
    && |items| + filtered == |ScopedHashes(lib, scores[..w])|
    && if reached then w > 0 && Electable(lib, scores[w - 1]) && estimate >= need else w == |scores| && estimate < need
  }

  /** One row of the walk: its item when it is electable, or that it is filtered for hardlinks. */
  method Consider(lib: Library, sc: ScoreRow, rank: nat) returns (item: Option<RunItem>, skipped: bool)
    ensures item == if Electable(lib, sc) then Some(ItemOf(lib.byHash, sc, rank)) else None
    ensures skipped <==> Scoped(lib, sc) && !Electable(lib, sc)
  {
    if !(sc.hash in lib.byHash && InScope(lib.volume, lib.byHash[sc.hash].savePath)) { return None, false; }
    if sc.hash in lib.nlink && lib.nlink[sc.hash] > Ceiling(lib.arrLinked, sc.hash) { return None, true; }
    var size := lib.byHash[sc.hash].size;
    return Some(RunItem(rank, sc.hash, sc.name, sc.score, size, size)), false;
  }

  /** The greedy walk down the score list, for a positive need. */
  method Walk(lib: Library, scores: seq<ScoreRow>, need: int)
    returns (items: seq<RunItem>, estimate: int, filtered: nat, reached: bool)
    requires need > 0
    ensures exists w: nat :: Walked(lib, scores, need, items, estimate, filtered, reached, w)
  {
    items, estimate, filtered, reached := [], 0, 0, false;
    ghost var seen := [];
    for i := 0 to |scores|
      invariant |items| == |seen| && estimate < need
      invariant Greedy(lib.byHash, seen, need, items, estimate)
      invariant seen == Candidates(lib, scores[..i]) && |items| + filtered == |ScopedHashes(lib, scores[..i])|
    {
      CandidatesStep(lib, scores, i);
      ScopedStep(lib, scores, i);
      var item, skipped := Consider(lib, scores[i], |items|);
      if skipped { filtered := filtered + 1; }
      if item.Some? {
        GreedyStep(lib.byHash, seen, need, items, estimate, scores[i], item.value);
        seen := seen + [scores[i]];
        items := items + [item.value];
        estimate := estimate + item.value.sizeBytes;
        if estimate >= need {
          assert Walked(lib, scores, need, items, estimate, filtered, true, i + 1);
          return items, estimate, filtered, true;
        }
      }
    }
    assert Walked(lib, scores, need, items, estimate, filtered, false, |scores|);
  }

  method Elect(lib: Library, scores: seq<ScoreRow>, need: int, freePct: real) returns (plan: RunPlan)
    requires need > 0
    ensures plan.freePctAtFire == freePct && Elected(lib, scores, need, plan)
  {
    var items, estimate, filtered, reached := Walk(lib, scores, need);
    plan := RunPlan(freePct, estimate, if reached then TargetReached else NoMoreCandidates, items, filtered);
    ghost var w: nat :| Walked(lib, scores, need, items, estimate, filtered, reached, w);
    WalkEnds(lib, scores, w, need, plan);
  }

  /** The plan stops after `w` rows: all of them, or up to and with its last item; what is in
      scope there and not elected is counted as filtered. */
  ghost predicate StopsAt(lib: Library, scores: seq<ScoreRow>, plan: RunPlan, w: nat) {
    && w <= |scores|
    && |plan.items| == |Candidates(lib, scores[..w])|
    && |plan.items| + plan.filteredCrossSeed == |ScopedHashes(lib, scores[..w])|
    && if plan.stopReason == NoMoreCandidates then w == |scores| else w > 0 && Electable(lib, scores[w - 1])
  }

  /** An exact and minimal plan with the right count of filtered torrents. */
  ghost predicate Elected(lib: Library, scores: seq<ScoreRow>, need: int, plan: RunPlan) {
    && ExactAndMinimal(lib.byHash, Candidates(lib, scores), need, plan)
    && exists w: nat :: StopsAt(lib, scores, plan, w)
  }

  lemma WalkEnds(lib: Library, scores: seq<ScoreRow>, w: nat, need: int, plan: RunPlan)
    requires Walked(lib, scores, need, plan.items, plan.estimatedFreedBytes, plan.filteredCrossSeed,
                    plan.stopReason == TargetReached, w)
    ensures Elected(lib, scores, need, plan)
  {
    var seen := Candidates(lib, scores[..w]);
    assert scores[..|scores|] == scores;
    CandidatesPrefix(lib, scores, w);
    GreedyMeans(lib.byHash, seen, need, plan.items, plan.estimatedFreedBytes);
    StoppedPlan(lib.byHash, Candidates(lib, scores), seen, need, plan);
    assert StopsAt(lib, scores, plan, w);
  }

  /** What Plan promises once the snapshot `usage` is known and something must be freed. */
  ghost predicate GoodPlan(src: Source, v: Volume, usage: DiskUsage, plan: RunPlan)
    requires src.torrents.Some? && src.scores.Some? && src.nlink.Some? && src.arrImports.Some?
  {
    var need := NeededBytes(usage.totalBytes, usage.freePercent, v.targetFreePercent);
    var lib := Library(v, ByHash(src.torrents.value), src.nlink.value, src.arrImports.value);
    && plan.freePctAtFire == usage.freePercent
    && Elected(lib, src.scores.value, need, plan)
  }

  /** The link counts matter only for the rows the query is asked about. */
  lemma {:induction false} SameCandidates(lib: Library, asked: Library, scores: seq<ScoreRow>)
    requires asked.(nlink := lib.nlink) == lib
    requires forall r :: r in scores && Scoped(lib, r) ==>
      (r.hash in asked.nlink <==> r.hash in lib.nlink)
      && (r.hash in lib.nlink ==> asked.nlink[r.hash] == lib.nlink[r.hash])
    ensures Candidates(lib, scores) == Candidates(asked, scores)
    ensures ScopedHashes(lib, scores) == ScopedHashes(asked, scores)
    decreases |scores|
  {
    if scores != [] {
      assert scores[|scores| - 1] in scores;
      SameCandidates(lib, asked, scores[..|scores| - 1]);
    }
  }

  lemma SameElected(lib: Library, asked: Library, scores: seq<ScoreRow>, need: int, plan: RunPlan)
    requires asked.(nlink := lib.nlink) == lib && Elected(asked, scores, need, plan)
    requires forall r :: r in scores && Scoped(lib, r) ==>
      (r.hash in asked.nlink <==> r.hash in lib.nlink)
      && (r.hash in lib.nlink ==> asked.nlink[r.hash] == lib.nlink[r.hash])
    ensures Elected(lib, scores, need, plan)
  {
    var w: nat :| StopsAt(asked, scores, plan, w);
    SameCandidates(lib, asked, scores);
    SameCandidates(lib, asked, scores[..w]);
    assert StopsAt(lib, scores, plan, w);
  }

  method Plan(src: Source, v: Volume) returns (result: PlanResult)
    ensures src.usage == None ==> result == Failed(DiskUsageUnavailable)
    ensures src.usage == Some(None) ==> result == Failed(NoSnapshot)
    ensures src.usage.Some? && src.usage.value.Some? ==>
      var usage := src.usage.value.value;
      if NeededBytes(usage.totalBytes, usage.freePercent, v.targetFreePercent) == 0 then
        result == Planned(RunPlan(usage.freePercent, 0, TargetReached, [], 0))
      else if src.scores == None || src.torrents == None || src.nlink == None || src.arrImports == None then
        result == Failed(StoreFailed)
      else
        result.Planned? && GoodPlan(src, v, usage, result.plan)
  {
    if src.usage == None { return Failed(DiskUsageUnavailable); }
    if src.usage.value == None { return Failed(NoSnapshot); }
    var usage := src.usage.value.value;
    var need := NeededBytes(usage.totalBytes, usage.freePercent, v.targetFreePercent);
    if need == 0 {
      return Planned(RunPlan(usage.freePercent, 0, TargetReached, [], 0));
    }
    if src.scores == None { return Failed(StoreFailed); }
    if src.torrents == None { return Failed(StoreFailed); }
    var scores := src.scores.value;
    var byHash := IndexByHash(src.torrents.value);
    var blank := Library(v, byHash, map[], {});
    var scoped := CollectScoped(blank, scores);
    ScopedAreAsked(blank, scores);
    if src.nlink == None { return Failed(StoreFailed); }
    if src.arrImports == None { return Failed(StoreFailed); }
    var maxNlink := map h | h in src.nlink.value && h in scoped :: src.nlink.value[h];
    var asked := Library(v, byHash, maxNlink, src.arrImports.value);
    var plan := Elect(asked, scores, need, usage.freePercent);
    SameElected(asked.(nlink := src.nlink.value), asked, scores, need, plan);
    return Planned(plan);
  }

  // ---------------------------------------------------------------- what a plan means

  lemma SharesAddUp(total: real, free: real, target: real)
    ensures total * (target - free) / 100.0 == total * target / 100.0 - total * free / 100.0
  {
    assert total * (target - free) == total * target - total * free;
  }

  /** A plan that reports target_reached frees enough, to within one byte, to bring the
      volume to its target. */
  lemma TargetReachedWithinOneByte(
    byHash: map<Hash, TorrentBasic>, candidates: seq<ScoreRow>, usage: DiskUsage, v: Volume, plan: RunPlan)
    requires usage.freePercent < v.targetFreePercent
    requires var need := NeededBytes(usage.totalBytes, usage.freePercent, v.targetFreePercent);
             ExactAndMinimal(byHash, candidates, need, plan) && plan.stopReason == TargetReached
    ensures var total := usage.totalBytes as real;
            plan.estimatedFreedBytes as real + total * usage.freePercent / 100.0
            > total * v.targetFreePercent / 100.0 - 1.0
  {
    SharesAddUp(usage.totalBytes as real, usage.freePercent, v.targetFreePercent);
  }

  /** Minimality: without its last item the plan misses the need. */
  lemma LastItemIsNeeded(byHash: map<Hash, TorrentBasic>, candidates: seq<ScoreRow>, need: int, plan: RunPlan)
    requires ExactAndMinimal(byHash, candidates, need, plan) && plan.items != []
    ensures plan.estimatedFreedBytes - plan.items[|plan.items| - 1].sizeBytes < need
  {
    var n := |plan.items|;
    assert candidates[..n][..n - 1] == candidates[..n - 1];
  }

  lemma {:induction false} CandidatesGrow(lib: Library, scores: seq<ScoreRow>, i: nat, j: nat)
    requires i <= j <= |scores|
    ensures |Candidates(lib, scores[..i])| <= |Candidates(lib, scores[..j])|
  {
    if i < j {
      CandidatesStep(lib, scores, j - 1);
      CandidatesGrow(lib, scores, i, j - 1);
    }
  }

  lemma StopsOnce(lib: Library, scores: seq<ScoreRow>, v: nat, i: nat)
    requires v <= i < |scores| && |Candidates(lib, scores[..v])| == |Candidates(lib, scores[..i + 1])|
    ensures !Electable(lib, scores[i])
  {
    CandidatesGrow(lib, scores, v, i);
    var seen := Candidates(lib, scores[..i]);
    assert |Candidates(lib, scores[..i + 1])| == |seen| + if Electable(lib, scores[i]) then 1 else 0 by {
      CandidatesStep(lib, scores, i);
    }
  }

  lemma SameStop(lib: Library, scores: seq<ScoreRow>, a: RunPlan, b: RunPlan, v: nat, w: nat)
    requires StopsAt(lib, scores, a, v) && StopsAt(lib, scores, b, w) && v <= w
    requires |a.items| == |b.items| && a.stopReason == b.stopReason
    ensures v == w
  {
    if v < w {
      var i := w - 1;
      assert scores[..i + 1] == scores[..w];
      StopsOnce(lib, scores, v, i);
    }
  }

  /** The plan is determined by the list, the library, the need and the free share: nothing in it,
      the count of filtered torrents included, is left to choice. */
  lemma PlanIsDetermined(lib: Library, scores: seq<ScoreRow>, need: int, a: RunPlan, b: RunPlan)
    requires Elected(lib, scores, need, a) && Elected(lib, scores, need, b) && a.freePctAtFire == b.freePctAtFire
    ensures a == b
  {
    ExactIsUnique(lib.byHash, Candidates(lib, scores), need, a, b);
    var v: nat :| StopsAt(lib, scores, a, v);
    var w: nat :| StopsAt(lib, scores, b, w);
    if v <= w { SameStop(lib, scores, a, b, v, w); } else { SameStop(lib, scores, b, a, w, v); }
    assert a.filteredCrossSeed == b.filteredCrossSeed;
  }

  lemma ExactIsUnique(byHash: map<Hash, TorrentBasic>, candidates: seq<ScoreRow>, need: int, a: RunPlan, b: RunPlan)
    requires ExactAndMinimal(byHash, candidates, need, a) && ExactAndMinimal(byHash, candidates, need, b)
    ensures a.items == b.items && a.estimatedFreedBytes == b.estimatedFreedBytes && a.stopReason == b.stopReason
  {
  }

  // ---------------------------------------------------------------- what a plan reaches down to

  /** The rows that pass a test, in order. */
  ghost function Keep(rows: seq<ScoreRow>, good: ScoreRow -> bool): seq<ScoreRow> {
    if rows == [] then [] else
    var last := rows[|rows| - 1];
    Keep(rows[..|rows| - 1], good) + if good(last) then [last] else []
  }

  /** Every row that passes the test stands before every row that does not. */
  ghost predicate GoodFirst(rows: seq<ScoreRow>, good: ScoreRow -> bool) {
    forall i, j :: 0 <= i < j < |rows| && good(rows[j]) ==> good(rows[i])
  }

  lemma KeepIsPrefix(rows: seq<ScoreRow>, good: ScoreRow -> bool)
    requires GoodFirst(rows, good)
    ensures var p := |Keep(rows, good)|;
      && p <= |rows| && Keep(rows, good) == rows[..p]
      && forall k :: 0 <= k < |rows| ==> (good(rows[k]) <==> k < p)
  {
    var p := Border(rows, good);
    KeepUpTo(rows, good, p);
  }

  /** Where the good rows end. */
  lemma {:induction false} Border(rows: seq<ScoreRow>, good: ScoreRow -> bool) returns (p: nat)
    requires GoodFirst(rows, good)
    ensures p <= |rows| && forall k :: 0 <= k < |rows| ==> (good(rows[k]) <==> k < p)
  {
    p := |rows|;
    if rows != [] && !good(rows[|rows| - 1]) {
      var init := rows[..|rows| - 1];
      p := Border(init, good);
      assert forall k :: 0 <= k < |init| ==> init[k] == rows[k];
    }
  }

  lemma {:induction false} KeepUpTo(rows: seq<ScoreRow>, good: ScoreRow -> bool, p: nat)
    requires p <= |rows| && forall k :: 0 <= k < |rows| ==> (good(rows[k]) <==> k < p)
    ensures Keep(rows, good) == rows[..p]
  {
    if rows != [] {
      var n := |rows| - 1;
      KeepUpTo(rows[..n], good, if p <= n then p else n);
      assert rows[..n + 1] == rows[..n] + [rows[n]];
    }
  }

  ghost predicate NoNegativeSize(byHash: map<Hash, TorrentBasic>, rows: seq<ScoreRow>) {
    forall k :: 0 <= k < |rows| ==> SizeOf(byHash, rows[k].hash) >= 0
  }

  lemma {:induction false} TotalGrows(byHash: map<Hash, TorrentBasic>, rows: seq<ScoreRow>, m: nat, n: nat)
    requires m <= n <= |rows| && NoNegativeSize(byHash, rows)
    ensures TotalSize(byHash, rows[..m]) <= TotalSize(byHash, rows[..n])
  {
    if m < n {
      TotalGrows(byHash, rows, m, n - 1);
      assert rows[..n][..n - 1] == rows[..n - 1];
    }
  }

  /** When the good candidates come first, a plan goes beyond them exactly when there are others
      and the good ones together fall short of the need. */
  lemma GoesBeyondExactly(byHash: map<Hash, TorrentBasic>, candidates: seq<ScoreRow>, need: int, plan: RunPlan,
                          good: ScoreRow -> bool)
    requires ExactAndMinimal(byHash, candidates, need, plan)
    requires GoodFirst(candidates, good) && NoNegativeSize(byHash, candidates)
    ensures (exists k :: 0 <= k < |plan.items| && !good(candidates[k]))
            <==> |Keep(candidates, good)| < |plan.items|
    ensures |Keep(candidates, good)| < |plan.items|
            <==> |Keep(candidates, good)| < |candidates| && TotalSize(byHash, Keep(candidates, good)) < need
  {
    var p, n := |Keep(candidates, good)|, |plan.items|;
    KeepIsPrefix(candidates, good);
    if p < n { assert !good(candidates[p]); }
    if n <= p { TotalGrows(byHash, candidates, n, p); }
  }

  /** Score rows as the store lists them: highest first. */
  ghost predicate Descending(rows: seq<ScoreRow>) {
    forall i, j :: 0 <= i < j < |rows| ==> rows[i].score >= rows[j].score
  }

  lemma {:induction false} CandidatesDescend(lib: Library, rows: seq<ScoreRow>)
    requires Descending(rows)
    ensures Descending(Candidates(lib, rows))
    decreases |rows|
  {
    if rows != [] {
      var init := rows[..|rows| - 1];
      CandidatesDescend(lib, init);
      forall r | r in Candidates(lib, init) ensures r.score >= rows[|rows| - 1].score {
        CandidatesAre(lib, init, r);
      }
    }
  }

  /** Under pressure the top candidate is elected whatever its score. */
  lemma TopIsElected(byHash: map<Hash, TorrentBasic>, candidates: seq<ScoreRow>, need: int, plan: RunPlan)
    requires need > 0 && candidates != [] && ExactAndMinimal(byHash, candidates, need, plan)
    ensures plan.items != [] && plan.items[0].hash == candidates[0].hash
            && plan.items[0].score == candidates[0].score
  {
    assert candidates[..0] == [];
    assert TotalSize(byHash, candidates[..0]) == 0;
  }

  function NotNegative(): ScoreRow -> bool { (r: ScoreRow) => r.score >= 0.0 }

  /** There is no score floor.  A plan elects a torrent with a negative score exactly when one is
      electable and all the others that are electable do not free enough. */
  lemma NoScoreFloor(lib: Library, scores: seq<ScoreRow>, need: int, plan: RunPlan)
    requires Descending(scores) && NoNegativeSize(lib.byHash, Candidates(lib, scores))
    requires ExactAndMinimal(lib.byHash, Candidates(lib, scores), need, plan)
    ensures var c := Candidates(lib, scores);
      (exists i :: i in plan.items && i.score < 0.0) <==>
      (exists r :: r in c && r.score < 0.0) && TotalSize(lib.byHash, Keep(c, NotNegative())) < need
  {
    var c, good := Candidates(lib, scores), NotNegative();
    CandidatesDescend(lib, scores);
    KeepIsPrefix(c, good);
    GoesBeyondExactly(lib.byHash, c, need, plan, good);
    ItemsAreRows(lib.byHash, c, plan.items);
    var p := |Keep(c, good)|;
    if r :| r in c && r.score < 0.0 {
      var k :| 0 <= k < |c| && c[k] == r;
      assert !good(c[k]);
    }
    if p < |c| { assert c[p] in c && !good(c[p]); }
  }

  lemma ItemsAreRows(byHash: map<Hash, TorrentBasic>, candidates: seq<ScoreRow>, items: seq<RunItem>)
    requires IsPrefixPlan(byHash, candidates, items)
    ensures (exists i :: i in items && i.score < 0.0) <==>
            exists k :: 0 <= k < |items| && !NotNegative()(candidates[k])
  {
    if i :| i in items && i.score < 0.0 {
      var k :| 0 <= k < |items| && items[k] == i;
      assert !NotNegative()(candidates[k]);
    }
    if k :| 0 <= k < |items| && !NotNegative()(candidates[k]) {
      assert items[k] in items && items[k].score < 0.0;
    }
  }

  /** Two torrents on the volume, one of them with a negative score. */
  ghost predicate TwoTorrents(lib: Library, rows: seq<ScoreRow>, path: string, size: int) {
    && |rows| == 2 && rows[0].score >= 0.0 > rows[1].score && rows[0].hash != rows[1].hash && size > 0
    && lib.volume.path == path && lib.nlink == map[] && lib.arrLinked == {}
    && lib.byHash == map[rows[0].hash := TorrentBasic(rows[0].hash, path, size),
                         rows[1].hash := TorrentBasic(rows[1].hash, path, size)]
  }

  /** When one torrent's size does not cover the need, the planner elects the negative one too. */
  lemma NegativeIsElected(lib: Library, rows: seq<ScoreRow>, path: string, size: int, need: int, plan: RunPlan)
    requires TwoTorrents(lib, rows, path, size) && size < need <= 2 * size
    requires ExactAndMinimal(lib.byHash, Candidates(lib, rows), need, plan)
    ensures plan.stopReason == TargetReached
    ensures plan.items == [ItemOf(lib.byHash, rows[0], 0), ItemOf(lib.byHash, rows[1], 1)]
    ensures plan.items[1].score < 0.0
  {
    TwoCandidates(lib, rows, path, size);
    TwoSizes(lib.byHash, rows, size);
    assert rows[..2] == rows;
    var n := |plan.items|;
    assert n == 2;
  }

  lemma TwoCandidates(lib: Library, rows: seq<ScoreRow>, path: string, size: int)
    requires TwoTorrents(lib, rows, path, size)
    ensures Candidates(lib, rows) == rows
  {
    assert Electable(lib, rows[0]) && Electable(lib, rows[1]);
    CandidatesStep(lib, rows, 0);
    CandidatesStep(lib, rows, 1);
    assert rows[..2] == rows && rows[..1] == [rows[0]];
    assert rows == [rows[0]] + [rows[1]];
  }

  lemma TwoSizes(byHash: map<Hash, TorrentBasic>, rows: seq<ScoreRow>, size: int)
    requires |rows| == 2 && SizeOf(byHash, rows[0].hash) == SizeOf(byHash, rows[1].hash) == size
    ensures TotalSize(byHash, rows[..0]) == 0 && TotalSize(byHash, rows[..1]) == size
    ensures TotalSize(byHash, rows) == 2 * size
  {
    assert rows[..1][..0] == [];
  }
}
