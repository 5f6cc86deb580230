/**
 A torrent's stored trackers.  Every poll rewrites them in one transaction; the moment a tracker
 was first seen dead is carried over while it stays dead, and seeded from the torrent's last
 activity when it dies.
 */
module TrackerTable {
  import opened Basics
  import opened Policy

  /** What the client reports of one tracker. */
  datatype Info = Info(url: string, host: string, status: TrackerStatus)

  type Rows = map<string, TrackerView>

  /** The activity proxy when it lies in the past, else the present. */
  function Seed(now: Time, proxy: Option<Time>): (seed: Time)
    ensures seed <= now
  {
    if proxy.Some? && proxy.value < now then proxy.value else now
  }

  /** The date of a death first seen now: the earlier of now and the last activity, if known. */
  predicate Earlier(now: Time, proxy: Option<Time>, at: Time) {
    && at <= now && (proxy.Some? ==> at <= proxy.value)
    && (at == now || Some(at) == proxy)
  }

  /** Whether the tracker was already dead with a known date. */
  predicate KnownDead(rows: Rows, url: string) {
    url in rows && rows[url].status == NotWorking && rows[url].firstSeenDead.Some?
  }

  function NextRow(rows: Rows, info: Info, now: Time, proxy: Option<Time>): TrackerView {
    TrackerView(info.host, info.status,
      if info.status != NotWorking then None
      else if KnownDead(rows, info.url) then rows[info.url].firstSeenDead
      else Some(Seed(now, proxy)))
  }

  function Replaced(rows: Rows, infos: seq<Info>, now: Time, proxy: Option<Time>): Rows {
    if infos == [] then map[] else
    var last := infos[|infos| - 1];
    Replaced(rows, infos[..|infos| - 1], now, proxy)[last.url := NextRow(rows, last, now, proxy)]
  }

  predicate DistinctUrls(infos: seq<Info>) {
    forall i, j :: 0 <= i < j < |infos| ==> infos[i].url != infos[j].url
  }

  lemma {:induction false} ReplacedRows(rows: Rows, infos: seq<Info>, now: Time, proxy: Option<Time>)
    requires DistinctUrls(infos)
    ensures var out := Replaced(rows, infos, now, proxy);
            && (forall u :: u in out ==> exists x :: x in infos && x.url == u)
            && (forall x :: x in infos ==> x.url in out && out[x.url] == NextRow(rows, x, now, proxy))
  {
    if infos != [] {
      var n := |infos| - 1;
      ReplacedRows(rows, infos[..n], now, proxy);
      assert infos == infos[..n] + [infos[n]];
    }
  }

  lemma InsertOne(rows: Rows, infos: seq<Info>, i: nat, now: Time, proxy: Option<Time>)
    requires i < |infos| && DistinctUrls(infos[..i])
    ensures infos[i].url in Replaced(rows, infos[..i], now, proxy) ==> !DistinctUrls(infos)
    ensures infos[i].url !in Replaced(rows, infos[..i], now, proxy) ==> DistinctUrls(infos[..i + 1])
  {
    ReplacedRows(rows, infos[..i], now, proxy);
    if infos[i].url in Replaced(rows, infos[..i], now, proxy) {
      var x :| x in infos[..i] && x.url == infos[i].url;
      var j :| 0 <= j < i && infos[j] == x;
    } else {
      forall j | 0 <= j < i ensures infos[j].url != infos[i].url { assert infos[j] in infos[..i]; }
    }
  }

  lemma ReplacedOne(rows: Rows, infos: seq<Info>, i: nat, now: Time, proxy: Option<Time>)
    requires i < |infos|
    ensures Replaced(rows, infos[..i + 1], now, proxy)
         == Replaced(rows, infos[..i], now, proxy)[infos[i].url := NextRow(rows, infos[i], now, proxy)]
  {
    assert infos[..i + 1][..i] == infos[..i];
  }

  class TorrentTrackers {
    var rows: Rows

    constructor ()
      ensures rows == map[]
    {
      rows := map[];
    }

    /** `fails` says which statements fail: 0 begin, 1 load, 2 clear, then each insert, then
        the commit.  The url is part of the key, so a second row of one url is refused. */
    method ReplaceTrackers(infos: seq<Info>, now: Time, proxy: Option<Time>, fails: nat -> bool) returns (ok: bool)
      modifies this
      ensures ok <==> DistinctUrls(infos) && forall k :: 0 <= k < |infos| + 4 ==> !fails(k)
      ensures rows == if ok then Replaced(old(rows), infos, now, proxy) else old(rows)
    {
      if fails(0) || fails(1) || fails(2) { return false; }
      var prevByUrl := rows;
      var table: Rows := map[];
      var deadSeed: Option<Time> := None;
      for i := 0 to |infos|
        invariant rows == old(rows) == prevByUrl
        invariant deadSeed == None || deadSeed == Some(Seed(now, proxy))
        invariant table == Replaced(rows, infos[..i], now, proxy)
        invariant DistinctUrls(infos[..i]) && forall k :: 0 <= k < i + 3 ==> !fails(k)
      {
        var info := infos[i];
        var firstSeenDead: Option<Time> := None;
        if info.status == NotWorking {
          if KnownDead(prevByUrl, info.url) {
            firstSeenDead := prevByUrl[info.url].firstSeenDead;
          } else {
            if deadSeed == None { deadSeed := Some(Seed(now, proxy)); }
            firstSeenDead := deadSeed;
          }
        }
        InsertOne(rows, infos, i, now, proxy);
        ReplacedOne(rows, infos, i, now, proxy);
        if info.url in table || fails(3 + i) { return false; }
        table := table[info.url := TrackerView(info.host, info.status, firstSeenDead)];
      }
      assert infos[..|infos|] == infos;
      if fails(3 + |infos|) { return false; }
      rows := table;
      return true;
    }
  }

  // ---------------------------------------------------------------- any number of polls

  /** One poll; nothing changes unless it commits. */
  datatype Poll = Poll(infos: seq<Info>, now: Time, proxy: Option<Time>, committed: bool)

  predicate WellFormed(polls: seq<Poll>) {
    && (forall i :: 0 <= i < |polls| && polls[i].committed ==> DistinctUrls(polls[i].infos))
    && (forall i, j :: 0 <= i < j < |polls| ==> polls[i].now <= polls[j].now)
  }

  function AfterOne(rows: Rows, p: Poll): Rows {
    if p.committed then Replaced(rows, p.infos, p.now, p.proxy) else rows
  }

  function After(polls: seq<Poll>): Rows {
    if polls == [] then map[] else AfterOne(After(polls[..|polls| - 1]), polls[|polls| - 1])
  }

  /** The poll reports the tracker, and reports it dead. */
  predicate ReportsDead(p: Poll, url: string) {
    exists x :: x in p.infos && x.url == url && x.status == NotWorking
  }

  predicate ReportsAlive(p: Poll, url: string) {
    exists x :: x in p.infos && x.url == url && x.status != NotWorking
  }

  /** Poll `s` began the dead run the tracker is in: it was reported dead then and ever since,
      and not by the last committed poll before. */
  ghost predicate DeadRun(polls: seq<Poll>, url: string, s: int) {
    && 0 <= s < |polls| && polls[s].committed
    && (forall i :: s <= i < |polls| && polls[i].committed ==> ReportsDead(polls[i], url))
    && (forall i :: 0 <= i < s && polls[i].committed && (forall j :: i < j < s ==> !polls[j].committed) ==>
          !ReportsDead(polls[i], url))
  }

  function CarriedDate(rows: Rows, url: string, p: Poll): Option<Time> {
    if KnownDead(rows, url) then rows[url].firstSeenDead else Some(Seed(p.now, p.proxy))
  }

  lemma AfterCommitted(polls: seq<Poll>, url: string)
    requires polls != [] && WellFormed(polls) && polls[|polls| - 1].committed
    ensures var last, rows := polls[|polls| - 1], After(polls);
      && (ReportsDead(last, url) ==> KnownDead(rows, url))
      && (ReportsDead(last, url) ==> rows[url].firstSeenDead == CarriedDate(After(polls[..|polls| - 1]), url, last))
      && (ReportsAlive(last, url) ==> url in rows && rows[url].status != NotWorking && rows[url].firstSeenDead == None)
      && (url in rows ==> ReportsDead(last, url) || ReportsAlive(last, url))
  {
    var last := polls[|polls| - 1];
    ReplacedRows(After(polls[..|polls| - 1]), last.infos, last.now, last.proxy);
  }

  /** A dead tracker has a date, no later than the last committed poll; any other has none. */
  lemma {:induction false} DatesMatchStatus(polls: seq<Poll>, url: string)
    requires WellFormed(polls) && url in After(polls)
    ensures var row := After(polls)[url];
      && (row.status == NotWorking <==> row.firstSeenDead.Some?)
      && (row.firstSeenDead.Some? ==> polls != [] && row.firstSeenDead.value <= polls[|polls| - 1].now)
  {
    var n := |polls| - 1;
    var before := polls[..n];
    assert WellFormed(before);
    assert n > 0 ==> before[n - 1].now <= polls[n].now;
    if polls[n].committed {
      AfterCommitted(polls, url);
      if KnownDead(After(before), url) { DatesMatchStatus(before, url); }
    } else {
      DatesMatchStatus(before, url);
    }
  }

  /** The poll that began the dead run the tracker is in, or -1. */
  function RunStart(polls: seq<Poll>, url: string): int {
    if polls == [] then -1 else
    var n := |polls| - 1;
    var before := RunStart(polls[..n], url);
    if !polls[n].committed then before
    else if !ReportsDead(polls[n], url) then -1
    else if before >= 0 then before else n
  }

  lemma {:induction false} RunStartInRange(polls: seq<Poll>, url: string)
    ensures -1 <= RunStart(polls, url) < |polls|
  {
    if polls != [] { RunStartInRange(polls[..|polls| - 1], url); }
  }

  /** The stored date is the seed of that poll. */
  lemma {:induction false} DatedByRunStart(polls: seq<Poll>, url: string)
    requires WellFormed(polls)
    ensures KnownDead(After(polls), url) <==> RunStart(polls, url) >= 0
    ensures var k := RunStart(polls, url);
      0 <= k < |polls| ==> After(polls)[url].firstSeenDead == Some(Seed(polls[k].now, polls[k].proxy))
  {
    if polls != [] {
      var n := |polls| - 1;
      assert WellFormed(polls[..n]);
      DatedByRunStart(polls[..n], url);
      RunStartInRange(polls[..n], url);
      if polls[n].committed {
        AfterCommitted(polls, url);
        OneReport(polls[n], url);
      }
    }
  }

  lemma OneReport(p: Poll, url: string)
    requires DistinctUrls(p.infos)
    ensures !(ReportsDead(p, url) && ReportsAlive(p, url))
  {
  }

  /** The last committed poll, if any, settles whether a dead run is going on. */
  lemma {:induction false} LastCommitted(polls: seq<Poll>, url: string) returns (k: int)
    ensures -1 <= k < |polls| && forall j :: k < j < |polls| ==> !polls[j].committed
    ensures k >= 0 ==> polls[k].committed
    ensures RunStart(polls, url) >= 0 <==> k >= 0 && ReportsDead(polls[k], url)
  {
    k := -1;
    if polls != [] {
      var n := |polls| - 1;
      if polls[n].committed { k := n; } else { k := LastCommitted(polls[..n], url); }
    }
  }

  /** A poll more, which does not end the run, leaves the earlier runs what they were. */
  lemma SamePrefix(polls: seq<Poll>, url: string, s: int)
    requires polls != [] && s != |polls| - 1
    requires polls[|polls| - 1].committed ==> ReportsDead(polls[|polls| - 1], url)
    ensures DeadRun(polls, url, s) <==> DeadRun(polls[..|polls| - 1], url, s)
  {
    var n := |polls| - 1;
    if 0 <= s < n {
      if DeadRun(polls, url, s) { Carries(polls, polls[..n], url, s); }
      if DeadRun(polls[..n], url, s) { Carries(polls[..n], polls, url, s); }
    }
  }

  lemma Carries(a: seq<Poll>, b: seq<Poll>, url: string, s: nat)
    requires s < |a| && s < |b| && DeadRun(a, url, s)
    requires forall i :: 0 <= i < |a| && i < |b| ==> a[i] == b[i]
    requires forall i :: |a| <= i < |b| && b[i].committed ==> ReportsDead(b[i], url)
    ensures DeadRun(b, url, s)
  {
    forall i | s <= i < |b| && b[i].committed ensures ReportsDead(b[i], url) {
      if i < |a| { assert a[i].committed; }
    }
    forall i | 0 <= i < s && b[i].committed && (forall j :: i < j < s ==> !b[j].committed)
      ensures !ReportsDead(b[i], url)
    {
      assert a[i].committed && forall j :: i < j < s ==> !a[j].committed;
    }
  }

  /** The run begins with poll `n` when none was going on. */
  lemma BeginsAtLast(polls: seq<Poll>, url: string)
    requires polls != [] && polls[|polls| - 1].committed && ReportsDead(polls[|polls| - 1], url)
    ensures DeadRun(polls, url, |polls| - 1) <==> RunStart(polls[..|polls| - 1], url) < 0
  {
    var n := |polls| - 1;
    var k := LastCommitted(polls[..n], url);
    if k >= 0 { assert polls[k] == polls[..n][k]; }
    assert forall j :: k < j < n ==> polls[j] == polls[..n][j] && !polls[j].committed;
  }

  /** There is at most one dead run, and RunStart finds it. */
  lemma {:induction false} RunStartIs(polls: seq<Poll>, url: string, s: int)
    ensures DeadRun(polls, url, s) <==> s == RunStart(polls, url) && s >= 0
  {
    if polls != [] {
      var n := |polls| - 1;
      RunStartIs(polls[..n], url, s);
      RunStartInRange(polls[..n], url);
      if polls[n].committed && ReportsDead(polls[n], url) {
        BeginsAtLast(polls, url);
        if s != n { SamePrefix(polls, url, s); }
      } else if !polls[n].committed && s != n {
        SamePrefix(polls, url, s);
      }
    }
  }

  /** The dead trackers are exactly those in a dead run, and the date is the earlier of the time of
      the poll that began the run and the torrent's last activity known then: it stays the same
      through the run and a recovery forgets it. */
  lemma DeadSinceRunBegan(polls: seq<Poll>, url: string)
    requires WellFormed(polls)
    ensures KnownDead(After(polls), url) <==> exists s :: DeadRun(polls, url, s)
    ensures forall s :: DeadRun(polls, url, s) ==>
      KnownDead(After(polls), url)
      && After(polls)[url].firstSeenDead.Some?
      && Earlier(polls[s].now, polls[s].proxy, After(polls)[url].firstSeenDead.value)
  {
    DatedByRunStart(polls, url);
    RunStartInRange(polls, url);
    RunStartIs(polls, url, RunStart(polls, url));
    forall s | DeadRun(polls, url, s) ensures s == RunStart(polls, url) { RunStartIs(polls, url, s); }
  }

  /** Poll `k` is the last that committed. */
  predicate LastCommit(polls: seq<Poll>, k: int) {
    0 <= k < |polls| && polls[k].committed && forall j :: k < j < |polls| ==> !polls[j].committed
  }

  /** The stored trackers are those of the last poll that committed, with the host and the status
      it reported. */
  lemma {:induction false} RowsAreLastReport(polls: seq<Poll>, k: int, url: string)
    requires WellFormed(polls) && LastCommit(polls, k)
    ensures url in After(polls) <==> exists x :: x in polls[k].infos && x.url == url
    ensures forall x :: x in polls[k].infos && x.url == url ==>
      After(polls)[url].host == x.host && After(polls)[url].status == x.status
  {
    var n := |polls| - 1;
    if k == n {
      ReplacedRows(After(polls[..n]), polls[n].infos, polls[n].now, polls[n].proxy);
    } else {
      assert polls[..n][k] == polls[k];
      RowsAreLastReport(polls[..n], k, url);
    }
  }

  // ---------------------------------------------------------------- the sustained-dead gate

  /** The stored rows in some order. */
  ghost predicate Listing(rows: Rows, views: seq<TrackerView>) {
    forall v :: v in views <==> v in rows.Values
  }

  ghost predicate GateHolds(rows: Rows, now: Time, grace: int) {
    && rows != map[]
    && forall u :: u in rows ==> KnownDead(rows, u) && rows[u].firstSeenDead.value <= now - grace
  }

  /** The scorer's gate reads any listing of the rows alike. */
  lemma GateReadsRows(rows: Rows, views: seq<TrackerView>, now: Time, grace: int)
    requires Listing(rows, views)
    ensures DeadSustained(views, now, grace) <==> GateHolds(rows, now, grace)
  {
    if GateHolds(rows, now, grace) {
      var u :| u in rows;
      assert rows[u] in rows.Values;
    }
    if DeadSustained(views, now, grace) {
      assert views[0] in rows.Values;
      forall u | u in rows ensures KnownDead(rows, u) && rows[u].firstSeenDead.value <= now - grace {
        assert rows[u] in rows.Values;
      }
    }
  }

  /** The gate, once true, stays true across a committed poll exactly when that poll reports at
      least one tracker, all of them dead, and any it has not reported before has been inactive
      for the grace.  In particular with the tracker set fixed only a recovery closes it. */
  lemma GateAcrossPoll(rows: Rows, p: Poll, earlier: Time, later: Time, grace: int)
    requires GateHolds(rows, earlier, grace) && earlier <= later && p.committed && DistinctUrls(p.infos)
    ensures GateHolds(AfterOne(rows, p), later, grace) <==>
      && p.infos != []
      && forall x :: x in p.infos ==>
           x.status == NotWorking
           && (x.url in rows || p.now <= later - grace || (p.proxy.Some? && p.proxy.value <= later - grace))
  {
    var out := AfterOne(rows, p);
    ReplacedRows(rows, p.infos, p.now, p.proxy);
    if p.infos != [] { assert p.infos[0] in p.infos && p.infos[0].url in out; }
    if GateHolds(out, later, grace) {
      var u :| u in out;
      forall x | x in p.infos
        ensures x.status == NotWorking
        ensures x.url in rows || p.now <= later - grace || (p.proxy.Some? && p.proxy.value <= later - grace)
      {
        assert x.url in out;
      }
    }
  }

  /** Every poll that commits reports exactly these trackers, all dead. */
  ghost predicate NoRecovery(more: seq<Poll>, urls: set<string>) {
    forall i :: 0 <= i < |more| && more[i].committed ==>
      && DistinctUrls(more[i].infos)
      && (forall x :: x in more[i].infos ==> x.url in urls && x.status == NotWorking)
      && (forall u :: u in urls ==> ReportsDead(more[i], u))
  }

  function AfterMore(rows: Rows, more: seq<Poll>): Rows {
    if more == [] then rows else AfterOne(AfterMore(rows, more[..|more| - 1]), more[|more| - 1])
  }

  /** Over any number of polls, failed or not, the gate stays true until a tracker recovers. */
  lemma {:induction false} GateStaysUntilRecovery(rows: Rows, more: seq<Poll>, earlier: Time, later: Time, grace: int)
    requires GateHolds(rows, earlier, grace) && earlier <= later && NoRecovery(more, rows.Keys)
    ensures GateHolds(AfterMore(rows, more), later, grace) && AfterMore(rows, more).Keys == rows.Keys
  {
    if more != [] {
      var n := |more| - 1;
      GateStaysUntilRecovery(rows, more[..n], earlier, later, grace);
      if more[n].committed { GateKept(AfterMore(rows, more[..n]), more[n], rows.Keys, later, grace); }
    }
  }

  lemma GateKept(rows: Rows, p: Poll, urls: set<string>, now: Time, grace: int)
    requires GateHolds(rows, now, grace) && rows.Keys == urls && p.committed && DistinctUrls(p.infos)
    requires forall x :: x in p.infos ==> x.url in urls && x.status == NotWorking
    requires forall u :: u in urls ==> ReportsDead(p, u)
    ensures GateHolds(AfterOne(rows, p), now, grace) && AfterOne(rows, p).Keys == urls
  {
    var u :| u in rows;
    assert ReportsDead(p, u);
    GateAcrossPoll(rows, p, now, now, grace);
    ReplacedRows(rows, p.infos, p.now, p.proxy);
  }
}
