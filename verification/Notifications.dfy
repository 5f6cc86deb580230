/**
 Throttled notifications over the persisted table of what has been announced: the alert that the
 free-space target cannot be reached, and the health events of each component.
 */
module Notifications {
  import opened Basics

  type Sent = map<string, Time>

  function RowAt(sent: Sent, key: string): Option<Time> { if key in sent then Some(sent[key]) else None }

  /** Store failures are arbitrary: each read and each write may fail. */
  datatype Faults = Faults(read: bool, write: bool)

  // ---------------------------------------------------------------- the two decisions

  /** One look at a plan: whether it ran out of candidates, and whether anyone listens. */
  datatype Look = Look(shortfall: bool, listening: bool, faults: Faults, now: Time)

  predicate Alerts(row: Option<Time>, reminder: int, l: Look) {
    l.shortfall && l.listening && !l.faults.read && (row == None || l.now - row.value >= reminder)
  }

  function AfterLook(row: Option<Time>, reminder: int, l: Look): Option<Time> {
    if l.faults.write then row
    else if !l.shortfall then None
    else if Alerts(row, reminder, l) then Some(l.now)
    else row
  }

  datatype Check = Check(healthy: bool, faults: Faults, now: Time)
  datatype Event = Degraded | Recovered

  function Announces(row: Option<Time>, c: Check): Option<Event> {
    if c.faults.read then None
    else if !c.healthy && row == None then Some(Degraded)
    else if c.healthy && row != None then Some(Recovered)
    else None
  }

  function AfterCheck(row: Option<Time>, c: Check): Option<Time> {
    if c.faults.write then row else
    match Announces(row, c)
    case None => row
    case Some(Degraded) => Some(c.now)
    case Some(Recovered) => None
  }

  function HealthKey(kind: string, component: string): string { "health:" + kind + ":" + component }
  function ShortfallKey(volume: string): string { "target_unreachable:" + volume }

  // ---------------------------------------------------------------- the watchers' methods

  class Table {
    var sent: Sent

    constructor ()
      ensures sent == map[]
    {
      sent := map[];
    }

    method MarkNotificationSent(key: string, at: Time, fails: bool)
      modifies this
      ensures sent == if fails then old(sent) else old(sent)[key := at]
    {
      if !fails { sent := sent[key := at]; }
    }

    method ClearNotificationState(key: string, fails: bool)
      modifies this
      ensures sent == if fails then old(sent) else old(sent) - {key}
    {
      if !fails { sent := sent - {key}; }
    }

    method MaybeAlertShortfall(volume: string, reminder: int, l: Look) returns (alerted: bool)
      modifies this
      ensures alerted <==> Alerts(RowAt(old(sent), ShortfallKey(volume)), reminder, l)
      ensures RowAt(sent, ShortfallKey(volume)) == AfterLook(RowAt(old(sent), ShortfallKey(volume)), reminder, l)
      ensures forall k :: k != ShortfallKey(volume) ==> RowAt(sent, k) == RowAt(old(sent), k)
    {
      var key := ShortfallKey(volume);
      if !l.shortfall {
        ClearNotificationState(key, l.faults.write);
        return false;
      }
      if !l.listening || l.faults.read { return false; }
      if key in sent && l.now - sent[key] < reminder { return false; }
      MarkNotificationSent(key, l.now, l.faults.write);
      return true;
    }

    method Reconcile(kind: string, component: string, c: Check) returns (event: Option<Event>)
      modifies this
      ensures event == Announces(RowAt(old(sent), HealthKey(kind, component)), c)
      ensures RowAt(sent, HealthKey(kind, component)) == AfterCheck(RowAt(old(sent), HealthKey(kind, component)), c)
      ensures forall k :: k != HealthKey(kind, component) ==> RowAt(sent, k) == RowAt(old(sent), k)
    {
      var key := HealthKey(kind, component);
      if c.faults.read { return None; }
      var alerted := key in sent;
      if !c.healthy && !alerted {
        MarkNotificationSent(key, c.now, c.faults.write);
        return Some(Degraded);
      } else if c.healthy && alerted {
        ClearNotificationState(key, c.faults.write);
        return Some(Recovered);
      }
      return None;
    }
  }

  // ---------------------------------------------------------------- keys

  predicate NoColon(s: string) { forall i :: 0 <= i < |s| ==> s[i] != ':' }

  /** Components of distinct kinds or names, and volumes, never share a row. */
  lemma KeysAreSeparate(kind: string, component: string, kind2: string, component2: string, volume: string)
    requires NoColon(kind) && NoColon(kind2)
    ensures HealthKey(kind, component) == HealthKey(kind2, component2) ==> kind == kind2 && component == component2
    ensures HealthKey(kind, component) != ShortfallKey(volume)
  {
    var a, b := HealthKey(kind, component), HealthKey(kind2, component2);
    assert a[0] == 'h' && ShortfallKey(volume)[0] == 't';
    assert forall i :: 0 <= i < |kind| ==> a[7 + i] == kind[i];
    assert forall i :: 0 <= i < |kind2| ==> b[7 + i] == kind2[i];
    assert a[7 + |kind|] == ':' && b[7 + |kind2|] == ':';
    if a == b {
      assert |kind| == |kind2|;
      assert kind == a[7..7 + |kind|] && kind2 == b[7..7 + |kind2|];
      assert component == a[8 + |kind|..] && component2 == b[8 + |kind2|..];
    }
  }

  // ---------------------------------------------------------------- shortfall alerts over time

  function RowAfterLooks(row: Option<Time>, reminder: int, looks: seq<Look>): Option<Time> {
    if looks == [] then row
    else AfterLook(RowAfterLooks(row, reminder, looks[..|looks| - 1]), reminder, looks[|looks| - 1])
  }

  predicate AlertAt(row: Option<Time>, reminder: int, looks: seq<Look>, i: nat)
    requires i < |looks|
  {
    Alerts(RowAfterLooks(row, reminder, looks[..i]), reminder, looks[i])
  }

  lemma LooksStep(row: Option<Time>, reminder: int, looks: seq<Look>, n: nat)
    requires n < |looks|
    ensures RowAfterLooks(row, reminder, looks[..n + 1])
            == AfterLook(RowAfterLooks(row, reminder, looks[..n]), reminder, looks[n])
  {
    assert looks[..n + 1][..n] == looks[..n];
  }

  /** Through an unbroken shortfall the row keeps the last recorded alert. */
  lemma {:induction false} RowSince(row: Option<Time>, reminder: int, looks: seq<Look>, i: nat, n: nat)
    requires i < n <= |looks| && reminder >= 0
    requires AlertAt(row, reminder, looks, i) && !looks[i].faults.write
    requires forall k :: i < k < n ==> looks[k].shortfall
    ensures RowAfterLooks(row, reminder, looks[..n]).Some?
    ensures RowAfterLooks(row, reminder, looks[..n]).value >= looks[i].now
    decreases n
  {
    LooksStep(row, reminder, looks, n - 1);
    if n - 1 > i { RowSince(row, reminder, looks, i, n - 1); }
  }

  /** Two alerts within one unbroken shortfall are at least the reminder apart, provided the
      first was recorded. */
  lemma AlertsAreReminderApart(row: Option<Time>, reminder: int, looks: seq<Look>, i: nat, j: nat)
    requires i < j < |looks| && reminder >= 0
    requires AlertAt(row, reminder, looks, i) && AlertAt(row, reminder, looks, j) && !looks[i].faults.write
    requires forall k :: i < k < j ==> looks[k].shortfall
    ensures looks[j].now - looks[i].now >= reminder
  {
    RowSince(row, reminder, looks, i, j);
  }

  /** Looks of a shortfall that nobody hears or that cannot read the table change nothing. */
  lemma {:induction false} RowWhileDeaf(row: Option<Time>, reminder: int, looks: seq<Look>, i: nat, n: nat)
    requires i <= n <= |looks|
    requires forall k :: i <= k < n ==> looks[k].shortfall && (!looks[k].listening || looks[k].faults.read)
    ensures RowAfterLooks(row, reminder, looks[..n]) == RowAfterLooks(row, reminder, looks[..i])
  {
    if i < n {
      RowWhileDeaf(row, reminder, looks, i, n - 1);
      LooksStep(row, reminder, looks, n - 1);
    }
  }

  /** After an alert, the next look of the shortfall that is heard and can read the table alerts
      again exactly when the first alert was not recorded or the reminder has passed. */
  lemma AlertedAgainExactly(row: Option<Time>, reminder: int, looks: seq<Look>, i: nat, j: nat)
    requires i < j < |looks| && AlertAt(row, reminder, looks, i) && looks[i].now <= looks[j].now
    requires forall k :: i < k < j ==> looks[k].shortfall && (!looks[k].listening || looks[k].faults.read)
    requires looks[j].shortfall && looks[j].listening && !looks[j].faults.read
    ensures AlertAt(row, reminder, looks, j) <==> looks[i].faults.write || looks[j].now - looks[i].now >= reminder
  {
    LooksStep(row, reminder, looks, i);
    RowWhileDeaf(row, reminder, looks, i + 1, j);
  }

  /** A shortfall that follows a look without one, whose clearing succeeded, alerts at once. */
  lemma NewShortfallAlertsAtOnce(row: Option<Time>, reminder: int, looks: seq<Look>, i: nat)
    requires i + 1 < |looks| && !looks[i].shortfall && !looks[i].faults.write
    requires looks[i + 1].shortfall && looks[i + 1].listening && !looks[i + 1].faults.read
    ensures AlertAt(row, reminder, looks, i + 1)
  {
    LooksStep(row, reminder, looks, i);
  }

  // ---------------------------------------------------------------- health events over time

  function RowAfterChecks(row: Option<Time>, checks: seq<Check>): Option<Time> {
    if checks == [] then row else AfterCheck(RowAfterChecks(row, checks[..|checks| - 1]), checks[|checks| - 1])
  }

  function EventAt(row: Option<Time>, checks: seq<Check>, i: nat): Option<Event>
    requires i < |checks|
  {
    Announces(RowAfterChecks(row, checks[..i]), checks[i])
  }

  lemma ChecksStep(row: Option<Time>, checks: seq<Check>, n: nat)
    requires n < |checks|
    ensures RowAfterChecks(row, checks[..n + 1]) == AfterCheck(RowAfterChecks(row, checks[..n]), checks[n])
  {
    assert checks[..n + 1][..n] == checks[..n];
  }

  /** Checks that announce nothing leave the row alone. */
  lemma {:induction false} RowUnchanged(row: Option<Time>, checks: seq<Check>, i: nat, n: nat)
    requires i <= n <= |checks| && forall k :: i <= k < n ==> EventAt(row, checks, k) == None
    ensures RowAfterChecks(row, checks[..n]) == RowAfterChecks(row, checks[..i])
  {
    if i < n {
      RowUnchanged(row, checks, i, n - 1);
      ChecksStep(row, checks, n - 1);
      assert EventAt(row, checks, n - 1) == None;
    }
  }

  /** Starting without a row, the first event is a degradation. */
  lemma FirstEventIsDegraded(checks: seq<Check>, i: nat)
    requires i < |checks| && EventAt(None, checks, i).Some?
    requires forall k :: 0 <= k < i ==> EventAt(None, checks, k) == None
    ensures EventAt(None, checks, i) == Some(Degraded)
  {
    RowUnchanged(None, checks, 0, i);
    assert checks[..0] == [];
  }

  /** Of two successive events the second repeats the first exactly when the first could not be
      recorded; so they alternate as long as the writes succeed. */
  lemma EventsAlternateExactly(row: Option<Time>, checks: seq<Check>, i: nat, j: nat)
    requires i < j < |checks| && EventAt(row, checks, i).Some? && EventAt(row, checks, j).Some?
    requires forall k :: i < k < j ==> EventAt(row, checks, k) == None
    ensures EventAt(row, checks, i) == EventAt(row, checks, j) <==> checks[i].faults.write
  {
    ChecksStep(row, checks, i);
    RowUnchanged(row, checks, i + 1, j);
  }

  /** Check `k` is the last before `n` that could read and write the row. */
  predicate LastClean(checks: seq<Check>, n: nat, k: int)
    requires n <= |checks|
  {
    && 0 <= k < n && !checks[k].faults.read && !checks[k].faults.write
    && forall j :: k < j < n ==> checks[j].faults.read || checks[j].faults.write
  }

  predicate NeverClean(checks: seq<Check>, n: nat)
    requires n <= |checks|
  {
    forall j :: 0 <= j < n ==> checks[j].faults.read || checks[j].faults.write
  }

  /** The row stands exactly when the last check that could read and write found the component
      unhealthy. */
  lemma {:induction false} RowTellsHealth(row: Option<Time>, checks: seq<Check>, n: nat, k: int)
    requires n <= |checks| && if k < 0 then NeverClean(checks, n) else LastClean(checks, n, k)
    ensures k < 0 ==> RowAfterChecks(row, checks[..n]) == row
    ensures k >= 0 ==> (RowAfterChecks(row, checks[..n]).Some? <==> !checks[k].healthy)
    decreases n
  {
    if n > 0 {
      ChecksStep(row, checks, n - 1);
      if k < n - 1 { RowTellsHealth(row, checks, n - 1, k); }
    } else {
      assert checks[..0] == [];
    }
  }

  /** A check announces exactly when it can read the row and the component's health is not what
      the last check that could read and write found, or what the row said before any could. */
  lemma EventExactly(row: Option<Time>, checks: seq<Check>, i: nat, k: int)
    requires i < |checks| && if k < 0 then NeverClean(checks, i) else LastClean(checks, i, k)
    ensures var wasHealthy := if k < 0 then row == None else checks[k].healthy;
      && (EventAt(row, checks, i) == Some(Degraded) <==>
            !checks[i].faults.read && !checks[i].healthy && wasHealthy)
      && (EventAt(row, checks, i) == Some(Recovered) <==>
            !checks[i].faults.read && checks[i].healthy && !wasHealthy)
  {
    RowTellsHealth(row, checks, i, k);
  }

  /** A recorded degradation keeps its date until the next event. */
  lemma DegradedSince(row: Option<Time>, checks: seq<Check>, i: nat, n: nat)
    requires i < n <= |checks| && EventAt(row, checks, i) == Some(Degraded) && !checks[i].faults.write
    requires forall k :: i < k < n ==> EventAt(row, checks, k) == None
    ensures RowAfterChecks(row, checks[..n]) == Some(checks[i].now)
  {
    ChecksStep(row, checks, i);
    RowUnchanged(row, checks, i + 1, n);
  }

  /** All the events of a trace, in order. */
  function Events(checks: seq<Check>): seq<Event> {
    if checks == [] then [] else
    var n := |checks| - 1;
    Events(checks[..n]) + (match EventAt(None, checks, n) case None => [] case Some(e) => [e])
  }

  /** With every write succeeding the events alternate, starting with a degradation, and the row
      stands exactly while the last announced state is degraded. */
  lemma {:induction false} HealthAlternates(checks: seq<Check>)
    requires forall i :: 0 <= i < |checks| ==> !checks[i].faults.write
    ensures forall k :: 0 <= k < |Events(checks)| ==> Events(checks)[k] == if k % 2 == 0 then Degraded else Recovered
    ensures RowAfterChecks(None, checks).Some? <==> |Events(checks)| % 2 == 1
  {
    if checks != [] {
      var n := |checks| - 1;
      HealthAlternates(checks[..n]);
    }
  }
}
