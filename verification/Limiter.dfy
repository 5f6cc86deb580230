/**
 The per-address rate limiter's table: a map from addresses to limiters and a recency list,
 bounded in size.  A limiter is opaque; only which one an address gets matters.  It is named
 here by the number of the request that created it.
 */
module Limiter {
  import opened Basics

  datatype Entry = Entry(ip: string, limiter: nat)

  // ---------------------------------------------------------------- lists without repetition

  function Remove(s: seq<string>, x: string): seq<string> {
    if s == [] then [] else
    Remove(s[..|s| - 1], x) + (if s[|s| - 1] == x then [] else [s[|s| - 1]])
  }

  predicate Distinct(s: seq<string>) {
    forall i, j :: 0 <= i < j < |s| ==> s[i] != s[j]
  }

  lemma {:induction false} RemoveIs(s: seq<string>, x: string)
    ensures forall y :: y in Remove(s, x) <==> y in s && y != x
    ensures Distinct(s) ==> Distinct(Remove(s, x))
    ensures x !in s ==> Remove(s, x) == s
  {
    if s != [] {
      var n := |s| - 1;
      RemoveIs(s[..n], x);
      assert s == s[..n] + [s[n]];
      assert Distinct(s) ==> s[n] !in s[..n];
    }
  }

  lemma {:induction false} RemoveConcat(a: seq<string>, b: seq<string>, x: string)
    ensures Remove(a + b, x) == Remove(a, x) + Remove(b, x)
  {
    if b == [] {
      assert a + b == a;
    } else {
      assert (a + b)[..|a + b| - 1] == a + b[..|b| - 1];
      RemoveConcat(a, b[..|b| - 1], x);
    }
  }

  lemma RemoveMiddle(a: seq<string>, x: string, b: seq<string>)
    requires x !in a && x !in b
    ensures Remove(a + [x] + b, x) == a + b
  {
    RemoveConcat(a + [x], b, x);
    RemoveLast(a, x);
    RemoveAbsent(a, x);
    RemoveAbsent(b, x);
  }

  lemma RemoveLast(a: seq<string>, x: string)
    ensures Remove(a + [x], x) == Remove(a, x)
  {
    assert (a + [x])[..|a|] == a;
  }

  lemma RemoveAbsent(s: seq<string>, x: string)
    requires x !in s
    ensures Remove(s, x) == s
  {
    RemoveIs(s, x);
  }

  /** In a list without repetition, removing an element leaves what stands before and after it. */
  lemma RemoveAt(s: seq<string>, i: nat)
    requires Distinct(s) && i < |s|
    ensures Remove(s, s[i]) == s[..i] + s[i + 1..]
  {
    assert s == s[..i] + [s[i]] + s[i + 1..];
    RemoveMiddle(s[..i], s[i], s[i + 1..]);
  }

  // ---------------------------------------------------------------- the history and what it implies

  /** The addresses of a history, each once, the most recently used first. */
  function ByRecency(history: seq<string>): seq<string> {
    if history == [] then [] else
    var last := history[|history| - 1];
    [last] + Remove(ByRecency(history[..|history| - 1]), last)
  }

  /** The table never shrinks below one entry, whatever the configured bound. */
  function Capacity(maxIPs: int): nat { if maxIPs < 1 then 1 else maxIPs }

  function First(s: seq<string>, n: nat): seq<string> { if |s| <= n then s else s[..n] }

  lemma {:induction false} ByRecencyIs(history: seq<string>)
    ensures Distinct(ByRecency(history))
    ensures forall x :: x in ByRecency(history) <==> x in history
  {
    if history != [] {
      var n := |history| - 1;
      ByRecencyIs(history[..n]);
      RemoveIs(ByRecency(history[..n]), history[n]);
      assert history == history[..n] + [history[n]];
    }
  }

  // ---------------------------------------------------------------- the table after a history

  function Ips(s: seq<Entry>): seq<string> {
    seq(|s|, i requires 0 <= i < |s| => s[i].ip)
  }

  /** The list after one request; `number` names the limiter it would create. */
  function Touch(s: seq<Entry>, maxIPs: int, ip: string, number: nat): seq<Entry> {
    var i := Find(s, ip);
    if i < |s| then [s[i]] + s[..i] + s[i + 1..]
    else [Entry(ip, number)] + (if |s| >= maxIPs && s != [] then s[..|s| - 1] else s)
  }

  /** Where the address stands in the list; its length when nowhere. */
  function Find(s: seq<Entry>, ip: string): (i: nat)
    ensures i <= |s|
    ensures i < |s| ==> s[i].ip == ip
    ensures i == |s| <==> ip !in Ips(s)
  {
    if s == [] then 0
    else if s[0].ip == ip then assert Ips(s)[0] == ip; 0
    else
      assert Ips(s) == [s[0].ip] + Ips(s[1..]);
      1 + Find(s[1..], ip)
  }

  function Table(history: seq<string>, maxIPs: int): seq<Entry> {
    if history == [] then [] else
    var n := |history| - 1;
    Touch(Table(history[..n], maxIPs), maxIPs, history[n], n)
  }

  /** The addresses after one request. */
  function TouchIps(s: seq<string>, maxIPs: int, ip: string): seq<string> {
    [ip] + if ip in s then Remove(s, ip)
           else if |s| >= maxIPs && s != [] then s[..|s| - 1] else s
  }

  lemma TouchesIps(s: seq<Entry>, maxIPs: int, ip: string, number: nat)
    requires Distinct(Ips(s))
    ensures Ips(Touch(s, maxIPs, ip, number)) == TouchIps(Ips(s), maxIPs, ip)
  {
    var i := Find(s, ip);
    if i < |s| {
      assert Ips(s)[i] == ip;
      RemoveAt(Ips(s), i);
      MovedIps(s, i);
    } else if |s| >= maxIPs && s != [] {
      assert Ips([Entry(ip, number)] + s[..|s| - 1]) == [ip] + Ips(s)[..|s| - 1];
    } else {
      assert Ips([Entry(ip, number)] + s) == [ip] + Ips(s);
    }
  }

  lemma MovedIps(s: seq<Entry>, i: nat)
    requires i < |s|
    ensures Ips([s[i]] + s[..i] + s[i + 1..]) == [s[i].ip] + (Ips(s)[..i] + Ips(s)[i + 1..])
  {
  }

  lemma CutListed(r: seq<string>, i: nat, c: nat)
    requires Distinct(r) && i < |r| && i < c
    ensures r[i] in First(r, c)
    ensures First([r[i]] + (r[..i] + r[i + 1..]), c) == [r[i]] + Remove(First(r, c), r[i])
  {
    var f, x := First(r, c), r[i];
    assert f[i] == x;
    RemoveAt(f, i);
    if |r| > c {
      assert f[..i] == r[..i] && f[i + 1..] == r[i + 1..c];
      assert ([x] + (r[..i] + r[i + 1..]))[..c] == [x] + (r[..i] + r[i + 1..c]);
    }
  }

  lemma CutUnlisted(r: seq<string>, i: nat, c: nat)
    requires Distinct(r) && i < |r| && 1 <= c <= i
    ensures r[i] !in First(r, c)
    ensures First([r[i]] + (r[..i] + r[i + 1..]), c) == [r[i]] + First(r, c)[..c - 1]
  {
    assert (r[..i] + r[i + 1..])[..c - 1] == r[..c - 1];
  }

  lemma CutFound(r: seq<string>, i: nat, maxIPs: int)
    requires Distinct(r) && i < |r|
    ensures First([r[i]] + Remove(r, r[i]), Capacity(maxIPs)) == TouchIps(First(r, Capacity(maxIPs)), maxIPs, r[i])
  {
    var c := Capacity(maxIPs);
    RemoveAt(r, i);
    if i < c { CutListed(r, i, c); } else { CutUnlisted(r, i, c); }
  }

  lemma CutAbsent(r: seq<string>, ip: string, maxIPs: int)
    requires ip !in r
    ensures First([ip] + r, Capacity(maxIPs)) == TouchIps(First(r, Capacity(maxIPs)), maxIPs, ip)
  {
    var c := Capacity(maxIPs);
    assert ip !in First(r, c);
    if |r| >= c { assert ([ip] + r)[..c] == [ip] + r[..c - 1]; }
  }

  /** Cutting the recency order to the capacity commutes with using an address. */
  lemma CutStep(r: seq<string>, ip: string, maxIPs: int)
    requires Distinct(r)
    ensures First([ip] + Remove(r, ip), Capacity(maxIPs)) == TouchIps(First(r, Capacity(maxIPs)), maxIPs, ip)
  {
    if ip in r {
      var i :| 0 <= i < |r| && r[i] == ip;
      CutFound(r, i, maxIPs);
    } else {
      RemoveAbsent(r, ip);
      CutAbsent(r, ip, maxIPs);
    }
  }

  lemma DistinctFirst(r: seq<string>, c: nat)
    requires Distinct(r)
    ensures Distinct(First(r, c))
  {
  }

  /** The listed addresses are always the most recently used ones, as many as fit, in order. */
  lemma {:induction false} TableIsRecency(history: seq<string>, maxIPs: int)
    ensures Ips(Table(history, maxIPs)) == First(ByRecency(history), Capacity(maxIPs))
    ensures Distinct(Ips(Table(history, maxIPs)))
  {
    ByRecencyIs(history);
    if history != [] {
      var n := |history| - 1;
      var s, c := Table(history[..n], maxIPs), Capacity(maxIPs);
      TableIsRecency(history[..n], maxIPs);
      ByRecencyIs(history[..n]);
      TouchesIps(s, maxIPs, history[n], n);
      CutStep(ByRecency(history[..n]), history[n], maxIPs);
      DistinctFirst(ByRecency(history), c);
    }
  }

  // ---------------------------------------------------------------- the limiter in place

  class IpRateLimiter {
    var limiters: map<string, Entry>
    var lru: seq<Entry>
    var made: nat
    const maxIPs: int
    ghost var history: seq<string>

    ghost predicate Valid()
      reads this
    {
      made == |history| && Stands(lru, limiters, history, maxIPs)
    }

    constructor (maxIPs: int)
      ensures Valid() && history == [] && this.maxIPs == maxIPs
    {
      this.maxIPs := maxIPs;
      limiters, lru, made, history := map[], [], 0, [];
    }

    /** The limiter that decides a request from `ip`. */
    method Take(ip: string) returns (limiter: nat)
      requires Valid()
      modifies this
      ensures Valid() && history == old(history) + [ip]
      ensures lru != [] && limiter == lru[0].limiter && lru[0].ip == ip
    {
      if ip in limiters {
        var el := limiters[ip];
        var i: nat :| i < |lru| && lru[i] == el;
        Hit(lru, limiters, history, maxIPs, i);
        lru := [el] + lru[..i] + lru[i + 1..];
      } else {
        Miss(lru, limiters, history, maxIPs, ip);
        if |lru| >= maxIPs && |lru| > 0 {
          var oldest := lru[|lru| - 1];
          lru := lru[..|lru| - 1];
          limiters := limiters - {oldest.ip};
        }
        var el := Entry(ip, made);
        lru := [el] + lru;
        limiters := limiters[ip := el];
      }
      made := made + 1;
      history := history + [ip];
      return lru[0].limiter;
    }
  }

  /** The list is the table of the history and the map points at exactly its entries. */
  ghost predicate Stands(s: seq<Entry>, m: map<string, Entry>, history: seq<string>, maxIPs: int) {
    s == Table(history, maxIPs) && Matches(s, m)
  }

  lemma Hit(s: seq<Entry>, m: map<string, Entry>, history: seq<string>, maxIPs: int, i: nat)
    requires Stands(s, m, history, maxIPs) && i < |s|
    ensures Stands([s[i]] + s[..i] + s[i + 1..], m, history + [s[i].ip], maxIPs)
  {
    TableFound(history, maxIPs, i);
    MatchesMoved(s, m, i);
  }

  lemma Miss(s: seq<Entry>, m: map<string, Entry>, history: seq<string>, maxIPs: int, ip: string)
    requires Stands(s, m, history, maxIPs) && ip !in m
    ensures var e := Entry(ip, |history|);
      if |s| >= maxIPs && |s| > 0
      then Stands([e] + s[..|s| - 1], (m - {s[|s| - 1].ip})[ip := e], history + [ip], maxIPs)
      else Stands([e] + s, m[ip := e], history + [ip], maxIPs)
  {
    var e := Entry(ip, |history|);
    TableMissing(history, maxIPs, m, ip);
    if |s| >= maxIPs && |s| > 0 {
      MatchesEvicted(s, m);
      MatchesPushed(s[..|s| - 1], m - {s[|s| - 1].ip}, e);
    } else {
      MatchesPushed(s, m, e);
    }
  }

  lemma TableFound(history: seq<string>, maxIPs: int, i: nat)
    requires i < |Table(history, maxIPs)|
    ensures var s := Table(history, maxIPs);
            Table(history + [s[i].ip], maxIPs) == [s[i]] + s[..i] + s[i + 1..]
  {
    var s := Table(history, maxIPs);
    TableIsRecency(history, maxIPs);
    FindAt(s, s[i].ip, i);
    assert (history + [s[i].ip])[..|history|] == history;
  }

  lemma TableMissing(history: seq<string>, maxIPs: int, m: map<string, Entry>, ip: string)
    requires Matches(Table(history, maxIPs), m) && ip !in m
    ensures var s := Table(history, maxIPs);
            && Distinct(Ips(s))
            && Table(history + [ip], maxIPs)
               == [Entry(ip, |history|)] + (if |s| >= maxIPs && s != [] then s[..|s| - 1] else s)
  {
    TableIsRecency(history, maxIPs);
    NotListed(Table(history, maxIPs), m, ip);
    assert (history + [ip])[..|history|] == history;
  }

  /** In a valid table the map holds exactly the most recently used addresses. */
  lemma KeysAreRecent(s: seq<Entry>, m: map<string, Entry>, history: seq<string>, maxIPs: int)
    requires Stands(s, m, history, maxIPs)
    ensures forall x :: x in m <==> x in First(ByRecency(history), Capacity(maxIPs))
  {
    TableIsRecency(history, maxIPs);
    KeysAreListed(s, m);
  }

  /** The map points at exactly the listed entries. */
  ghost predicate Matches(s: seq<Entry>, m: map<string, Entry>) {
    && (forall e :: e in s <==> e.ip in m && m[e.ip] == e)
    && (forall x :: x in m ==> m[x].ip == x)
  }

  lemma MatchesMoved(s: seq<Entry>, m: map<string, Entry>, i: nat)
    requires Matches(s, m) && i < |s|
    ensures Matches([s[i]] + s[..i] + s[i + 1..], m)
  {
    assert s == s[..i] + [s[i]] + s[i + 1..];
    forall e ensures e in s <==> e in [s[i]] + s[..i] + s[i + 1..] { }
  }

  lemma MatchesEvicted(s: seq<Entry>, m: map<string, Entry>)
    requires Matches(s, m) && s != [] && Distinct(Ips(s))
    ensures Matches(s[..|s| - 1], m - {s[|s| - 1].ip})
  {
    AllButLast(s);
  }

  lemma MatchesPushed(s: seq<Entry>, m: map<string, Entry>, e: Entry)
    requires Matches(s, m) && e.ip !in m
    ensures Matches([e] + s, m[e.ip := e])
  {
  }

  lemma FindAt(s: seq<Entry>, ip: string, i: nat)
    requires Distinct(Ips(s)) && i < |s| && s[i].ip == ip
    ensures Find(s, ip) == i
  {
    assert Ips(s)[i] == ip;
    var j := Find(s, ip);
    assert Ips(s)[j] == ip;
  }

  lemma NotListed(s: seq<Entry>, m: map<string, Entry>, ip: string)
    requires ip !in m && Matches(s, m)
    ensures ip !in Ips(s)
  {
    forall i | 0 <= i < |s| ensures Ips(s)[i] != ip { assert s[i] in s; }
  }

  lemma AllButLast(s: seq<Entry>)
    requires s != [] && Distinct(Ips(s))
    ensures forall e :: e in s[..|s| - 1] <==> e in s && e.ip != s[|s| - 1].ip
  {
    var n := |s| - 1;
    assert s == s[..n] + [s[n]];
    forall e | e in s[..n] ensures e.ip != s[n].ip {
      var i :| 0 <= i < n && s[i] == e;
      assert Ips(s)[i] == e.ip && Ips(s)[n] == s[n].ip;
    }
  }

  lemma KeysAreListed(s: seq<Entry>, m: map<string, Entry>)
    requires Matches(s, m)
    ensures forall x :: x in m <==> x in Ips(s)
  {
    forall x ensures x in m <==> x in Ips(s) {
      if x in m {
        var i :| 0 <= i < |s| && s[i] == m[x];
        assert Ips(s)[i] == x;
      }
      if x in Ips(s) {
        var i :| 0 <= i < |s| && Ips(s)[i] == x;
        assert s[i] in s;
      }
    }
  }

  // ---------------------------------------------------------------- how long a limiter lasts

  lemma RemoveAround(front: seq<string>, ip: string, back: seq<string>, x: string)
    requires x != ip
    ensures Remove(front + [ip] + back, x) == Remove(front, x) + [ip] + Remove(back, x)
  {
    RemoveConcat(front + [ip], back, x);
    RemoveConcat(front, [ip], x);
    assert [ip][..0] == [];
  }

  /** One more use of another address. */
  lemma AheadStep(h: seq<string>, x: string, front: seq<string>, ip: string, back: seq<string>)
    requires x != ip && ByRecency(h) == front + [ip] + back
    ensures ByRecency(h + [x]) == [x] + Remove(front, x) + [ip] + Remove(back, x)
  {
    assert (h + [x])[..|h|] == h;
    RemoveAround(front, ip, back, x);
    var a, b := Remove(front, x), Remove(back, x);
    assert [x] + (a + [ip] + b) == [x] + a + [ip] + b;
  }

  /** Since its last use, the addresses before an address in recency order are those seen since. */
  lemma {:induction false} Ahead(start: seq<string>, ip: string, since: seq<string>)
    returns (front: seq<string>, back: seq<string>)
    requires ip !in since
    ensures ByRecency(start + [ip] + since) == front + [ip] + back
    ensures Distinct(front) && ip !in front && forall x :: x in front <==> x in since
  {
    var h := start + [ip];
    if since == [] {
      assert h[..|h| - 1] == start && h + since == h;
      front, back := [], Remove(ByRecency(start), ip);
    } else {
      var n := |since| - 1;
      var x := since[n];
      assert since == since[..n] + [x] && h + since == h + since[..n] + [x];
      front, back := Ahead(start, ip, since[..n]);
      AheadStep(h + since[..n], x, front, ip, back);
      RemoveIs(front, x);
      front, back := [x] + Remove(front, x), Remove(back, x);
    }
  }

  lemma {:induction false} DistinctCount(s: seq<string>)
    requires Distinct(s)
    ensures |set x | x in s| == |s|
  {
    if s != [] {
      var n := |s| - 1;
      DistinctCount(s[..n]);
      assert (set x | x in s) == (set x | x in s[..n]) + {s[n]};
    }
  }

  /** An address nobody asks for keeps its limiter or drops out of the table. */
  lemma {:induction false} KeptWhileListed(start: seq<string>, since: seq<string>, ip: string, maxIPs: int, e: Entry)
    requires ip !in since && e.ip == ip && e in Table(start + since, maxIPs)
    ensures e in Table(start, maxIPs)
    decreases |since|
  {
    if since == [] {
      assert start + since == start;
    } else {
      var n := |since| - 1;
      assert (start + since)[..|start + since| - 1] == start + since[..n];
      assert (start + since)[|start + since| - 1] == since[n];
      assert since[n] in since;
      KeptWhileListed(start, since[..n], ip, maxIPs, e);
    }
  }

  lemma TouchAdds(s: seq<Entry>, maxIPs: int, ip: string, number: nat, e: Entry)
    requires e in Touch(s, maxIPs, ip, number)
    ensures e in s || e == Entry(ip, number)
  {
  }

  /** A limiter was made for the address that holds it: no two addresses ever share one. */
  lemma {:induction false} MadeForItsAddress(history: seq<string>, maxIPs: int, e: Entry)
    requires e in Table(history, maxIPs)
    ensures e.limiter < |history| && history[e.limiter] == e.ip
  {
    var n := |history| - 1;
    TouchAdds(Table(history[..n], maxIPs), maxIPs, history[n], n, e);
    if e in Table(history[..n], maxIPs) { MadeForItsAddress(history[..n], maxIPs, e); }
  }

  /** An address is in the table exactly when fewer distinct others than the bound have been seen
      since its last request; the last one always is. */
  lemma ListedExactly(start: seq<string>, ip: string, since: seq<string>, maxIPs: int)
    requires ip !in since
    ensures ip in Ips(Table(start + [ip] + since, maxIPs)) <==> since == [] || |set x | x in since| < maxIPs
  {
    var h := start + [ip] + since;
    var front, back := Ahead(start, ip, since);
    DistinctCount(front);
    assert (set x | x in front) == (set x | x in since);
    TableIsRecency(h, maxIPs);
    ByRecencyIs(h);
    ListedIf(front, ip, back, Capacity(maxIPs));
    if since != [] {
      assert since[0] in front;
      assert |front| >= 1;
    } else {
      assert (set x | x in since) == {};
    }
  }

  /** An address keeps its limiter from one request to its next exactly when fewer distinct other
      addresses than the bound were seen in between, or none. */
  lemma KeptExactly(start: seq<string>, ip: string, since: seq<string>, maxIPs: int)
    requires ip !in since
    ensures
      var first, second := Table(start + [ip], maxIPs), Table(start + [ip] + since + [ip], maxIPs);
      && first != [] && second != [] && first[0].ip == second[0].ip == ip
      && (first[0].limiter == second[0].limiter <==> since == [] || |set x | x in since| < maxIPs)
  {
    var h := start + [ip] + since;
    var t := Table(h, maxIPs);
    StandsFirst(start, ip, maxIPs);
    StandsFirst(h, ip, maxIPs);
    ListedExactly(start, ip, since, maxIPs);
    assert (h + [ip])[..|h|] == h;
    MadeForItsAddress(start + [ip], maxIPs, Table(start + [ip], maxIPs)[0]);
    if ip in Ips(t) {
      TableIsRecency(h, maxIPs);
      var e := t[Find(t, ip)];
      assert Table(h + [ip], maxIPs)[0] == e;
      KeptWhileListed(start + [ip], since, ip, maxIPs, e);
      TableIsRecency(start + [ip], maxIPs);
      OneEntry(Table(start + [ip], maxIPs), e);
    } else {
      assert Table(h + [ip], maxIPs)[0] == Entry(ip, |h|);
      assert Table(start + [ip], maxIPs)[0] in Table(start + [ip], maxIPs);
    }
  }

  lemma StandsFirst(start: seq<string>, ip: string, maxIPs: int)
    ensures Table(start + [ip], maxIPs) != [] && Table(start + [ip], maxIPs)[0].ip == ip
  {
    assert (start + [ip])[..|start|] == start;
  }

  lemma ListedIf(front: seq<string>, ip: string, back: seq<string>, c: nat)
    requires Distinct(front + [ip] + back)
    ensures ip in First(front + [ip] + back, c) <==> |front| < c
  {
    var r := front + [ip] + back;
    assert r[|front|] == ip;
    if |front| < c { assert First(r, c)[|front|] == r[|front|]; }
    if ip in First(r, c) {
      var i :| 0 <= i < |First(r, c)| && First(r, c)[i] == ip;
      assert r[i] == ip;
    }
  }

  lemma OneEntry(s: seq<Entry>, e: Entry)
    requires Distinct(Ips(s)) && e in s && s[0].ip == e.ip
    ensures s[0] == e
  {
    var i :| 0 <= i < |s| && s[i] == e;
    assert Ips(s)[0] == Ips(s)[i];
  }
}
