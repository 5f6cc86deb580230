/**
 What the stored records say about a run: each action's audit rows tell exactly what was
 deleted and determine its terminal status; the actions are a prefix of the plan; the bytes
 claimed are those of the torrents reaped; and a stop takes effect at the next boundary.
 */
module ReaperAudit {
  import opened Basics
  import opened Reaper

  // ---------------------------------------------------------------- reading a log

  /** The values `pick` finds in the log, in order. */
  function Collect<T>(log: Log, pick: Event -> Option<T>): seq<T> {
    if log == [] then []
    else Collect(log[..|log| - 1], pick)
         + match pick(log[|log| - 1]) case None => [] case Some(x) => [x]
  }

  lemma CollectOne<T>(log: Log, e: Event, pick: Event -> Option<T>)
    ensures Collect(log + [e], pick)
            == Collect(log, pick) + match pick(e) case None => [] case Some(x) => [x]
  {
    assert (log + [e])[..|log|] == log;
  }

  lemma {:induction false} CollectNone<T>(log: Log, more: Log, pick: Event -> Option<T>)
    requires log <= more
    requires forall k :: |log| <= k < |more| ==> pick(more[k]) == None
    ensures Collect(more, pick) == Collect(log, pick)
    decreases |more|
  {
    if |more| > |log| {
      CollectNone(log, more[..|more| - 1], pick);
    } else {
      assert more == log;
    }
  }

  /** Everything the stored records and the *arr side say about one action. */
  datatype Record = Record(
    rows: seq<Row>,          // audit rows stored, in order
    deleted: seq<Link>,      // *arr files really deleted, in order
    tried: nat,              // *arr delete calls issued
    reaped: nat,             // successful qBittorrent deletes
    ended: seq<ActionStatus>)

  function Rows(id: ActionId): Event -> Option<Row> {
    (e: Event) => if e.Audited? && e.stored && e.row.action == id then Some(e.row) else None
  }

  function DeletedLinks(id: ActionId): Event -> Option<Link> {
    (e: Event) => if e.Deleted? && e.action == id && e.target.ArrFile? && e.outcome == Ok
         then Some(e.target.link) else None
  }

  function ArrCalls(id: ActionId): Event -> Option<Link> {
    (e: Event) => if e.Deleted? && e.action == id && e.target.ArrFile? then Some(e.target.link) else None
  }

  function Reaps(id: ActionId): Event -> Option<Hash> {
    (e: Event) => if e.Deleted? && e.action == id && e.target.Torrent? && e.outcome == Ok
         then Some(e.target.hash) else None
  }

  function Ends(id: ActionId): Event -> Option<ActionStatus> {
    (e: Event) => if e.Finished? && e.stored && e.action == id then Some(e.status) else None
  }

  function RecordOf(log: Log, id: ActionId): Record {
    Record(Collect(log, Rows(id)), Collect(log, DeletedLinks(id)), |Collect(log, ArrCalls(id))|,
           |Collect(log, Reaps(id))|, Collect(log, Ends(id)))
  }

  lemma RecordStep(log: Log, e: Event, id: ActionId)
    ensures var r, r' := RecordOf(log, id), RecordOf(log + [e], id);
            && r'.rows == r.rows + (if Rows(id)(e).Some? then [e.row] else [])
            && r'.deleted == r.deleted + (if DeletedLinks(id)(e).Some? then [e.target.link] else [])
            && r'.tried == r.tried + (if ArrCalls(id)(e).Some? then 1 else 0)
            && r'.reaped == r.reaped + (if Reaps(id)(e).Some? then 1 else 0)
            && r'.ended == r.ended + (if Ends(id)(e).Some? then [e.status] else [])
  {
    CollectOne(log, e, Rows(id));
    CollectOne(log, e, DeletedLinks(id));
    CollectOne(log, e, ArrCalls(id));
    CollectOne(log, e, Reaps(id));
    CollectOne(log, e, Ends(id));
  }

  /** The action an entry belongs to; an insertion is its own action's first entry. */
  function Owner(log: Log, k: nat): Option<ActionId>
    requires k < |log|
  {
    match log[k]
    case RunRead(_) => None
    case RunMarked(_, _) => None
    case Inserted(_, _) => Some(k)
    case Audited(row, _) => Some(row.action)
    case LinksRead(id, _) => Some(id)
    case Deleted(id, _, _) => Some(id)
    case SavePathRead(id, _) => Some(id)
    case FilesRead(id, _) => Some(id)
    case Stated(id, _, _) => Some(id)
    case Finished(id, _, _, _) => Some(id)
    case Forgot(id, _) => Some(id)
  }

  lemma Untouched(log: Log, more: Log, id: ActionId)
    requires log <= more
    requires forall k :: |log| <= k < |more| ==> Owner(more, k) != Some(id)
    ensures RecordOf(more, id) == RecordOf(log, id)
  {
    forall k | |log| <= k < |more|
      ensures Rows(id)(more[k]) == None && DeletedLinks(id)(more[k]) == None
           && ArrCalls(id)(more[k]) == None && Reaps(id)(more[k]) == None && Ends(id)(more[k]) == None
    {
      assert Owner(more, k) != Some(id);
    }
    CollectNone(log, more, Rows(id));
    CollectNone(log, more, DeletedLinks(id));
    CollectNone(log, more, ArrCalls(id));
    CollectNone(log, more, Reaps(id));
    CollectNone(log, more, Ends(id));
  }

  // ---------------------------------------------------------------- the story of an action

  /** How one action can go, with what the links query returned. */
  datatype Story =
    | LinksUnknown
    | Unactable(links: seq<Link>, first: nat)   // no deleter for links[first]
    | ArrFailed(links: seq<Link>, at: nat)      // the delete of links[at] failed
    | Unverified(links: seq<Link>)
    | CrossSeeded(links: seq<Link>)
    | QbitFailed(links: seq<Link>)
    | Reaped(links: seq<Link>)

  function LinkRows(id: ActionId, links: seq<Link>, o: AuditOutcome): seq<Row> {
    seq(|links|, i requires 0 <= i < |links| => LinkRow(id, links[i], o))
  }

  predicate WellFormed(s: Story) {
    (s.Unactable? ==> s.first < |s.links|) && (s.ArrFailed? ==> s.at < |s.links|)
  }

  /** The audit language: the only row sequences an action can have. */
  function StoryRows(id: ActionId, s: Story): seq<Row>
    requires WellFormed(s)
  {
    match s
    case LinksUnknown => [Row(id, ArrDelete, "", 0, Failed)]
    case Unactable(ls, i) => [LinkRow(id, ls[i], Skipped)] + LinkRows(id, ls[i+1..], NotAttempted)
    case ArrFailed(ls, i) =>
      LinkRows(id, ls[..i], OK) + [LinkRow(id, ls[i], Failed)] + LinkRows(id, ls[i+1..], NotAttempted)
    case Unverified(ls) => LinkRows(id, ls, OK) + [CheckRow(id, CheckFailed)]
    case CrossSeeded(ls) => LinkRows(id, ls, OK) + [CheckRow(id, Conflict)]
    case QbitFailed(ls) => LinkRows(id, ls, OK) + [CheckRow(id, Clear)] + [QbitRow(id, false)]
    case Reaped(ls) => LinkRows(id, ls, OK) + [CheckRow(id, Clear)] + [QbitRow(id, true)]
  }

  function StoryDeleted(s: Story): seq<Link>
    requires WellFormed(s)
  {
    match s
    case LinksUnknown => []
    case Unactable(_, _) => []
    case ArrFailed(ls, i) => ls[..i]
    case _ => s.links
  }

  /** The terminal status as the audit rows alone determine it. */
  function StatusOf(rows: seq<Row>): ActionStatus {
    if rows == [] then AbortedArrFail else
    var last := rows[|rows| - 1];
    match last.step
    case ArrDelete => AbortedArrFail
    case NlinkCheck => if last.outcome == Failed then AbortedNlinkCheck else SkippedCrossSeed
    case QbitDelete => if last.outcome == OK then Succeeded else FailedQbit
  }

  /** The record of action `id` tells exactly the story `s`. */
  ghost predicate Tells(r: Record, id: ActionId, s: Story) {
    && WellFormed(s)
    && r.rows == StoryRows(id, s)
    && r.deleted == StoryDeleted(s)
    && (s.Unactable? || s.LinksUnknown? ==> r.tried == 0)
    && r.reaped == (if s.Reaped? then 1 else 0)
    && r.ended == [StatusOf(r.rows)]
    && (StatusOf(r.rows) == Succeeded <==> s.Reaped?)
  }

  ghost predicate AllStored(env: Env) {
    forall n :: env.stored(n)
  }

  /** From `log` to `more` only action `id` moved, and its record grew by these. */
  ghost predicate Grew(
    log: Log, more: Log, id: ActionId, rows: seq<Row>, deleted: seq<Link>, reaped: nat)
  {
    && log <= more
    && (forall k :: |log| <= k < |more| ==> Owner(more, k) == Some(id) && !more[k].Finished?)
    && (var r, r' := RecordOf(log, id), RecordOf(more, id);
        && r'.rows == r.rows + rows && r'.deleted == r.deleted + deleted
        && r'.reaped == r.reaped + reaped && r'.ended == r.ended)
  }

  ghost predicate SameTried(log: Log, more: Log, id: ActionId) {
    RecordOf(more, id).tried == RecordOf(log, id).tried
  }

  lemma GrewJoin(a: Log, b: Log, c: Log, id: ActionId,
                 rows1: seq<Row>, del1: seq<Link>, reap1: nat,
                 rows2: seq<Row>, del2: seq<Link>, reap2: nat)
    requires Grew(a, b, id, rows1, del1, reap1) && Grew(b, c, id, rows2, del2, reap2)
    ensures Grew(a, c, id, rows1 + rows2, del1 + del2, reap1 + reap2)
  {
    forall k | |a| <= k < |c| ensures Owner(c, k) == Some(id) && !c[k].Finished? {
      if k < |b| { assert c[k] == b[k]; assert Owner(b, k) == Some(id) && !b[k].Finished?; }
    }
    var r, r1 := RecordOf(a, id).rows, RecordOf(a, id).deleted;
    assert r + (rows1 + rows2) == r + rows1 + rows2;
    assert r1 + (del1 + del2) == r1 + del1 + del2;
  }

  lemma AuditGrew(env: Env, log: Log, id: ActionId, row: Row)
    requires AllStored(env) && row.action == id
    ensures Grew(log, Audit(env, log, row), id, [row], [], 0)
    ensures SameTried(log, Audit(env, log, row), id)
  {
    RecordStep(log, Audited(row, env.stored(|log|)), id);
  }

  lemma {:induction false} RemainingGrew(env: Env, log: Log, id: ActionId, rest: seq<Link>)
    requires AllStored(env)
    ensures Grew(log, Remaining(env, log, id, rest), id, LinkRows(id, rest, NotAttempted), [], 0)
    ensures SameTried(log, Remaining(env, log, id, rest), id)
    decreases |rest|
  {
    if rest == [] {
    } else {
      var row := LinkRow(id, rest[0], NotAttempted);
      var next := Audit(env, log, row);
      AuditGrew(env, log, id, row);
      RemainingGrew(env, next, id, rest[1..]);
      GrewJoin(log, next, Remaining(env, log, id, rest), id, [row], [], 0,
               LinkRows(id, rest[1..], NotAttempted), [], 0);
      assert [row] + LinkRows(id, rest[1..], NotAttempted) == LinkRows(id, rest, NotAttempted);
    }
  }

  /** A retried delete: on success exactly one deletion happened, on failure none. */
  lemma {:induction false} AttemptGrew(env: Env, log: Log, id: ActionId, target: Target, k: nat)
    requires k > 0
    ensures var (r, ok) := Attempt(env, log, id, target, k);
            Grew(log, r, id, [], if ok && target.ArrFile? then [target.link] else [],
                 if ok && target.Torrent? then 1 else 0)
    decreases k
  {
    var o := env.deletion(|log|);
    var log' := log + [Deleted(id, target, o)];
    RecordStep(log, Deleted(id, target, o), id);
    if o == Transient && k > 1 {
      AttemptGrew(env, log', id, target, k - 1);
      var (r, ok) := Attempt(env, log', id, target, k - 1);
      GrewJoin(log, log', r, id, [], [], 0,
               [], if ok && target.ArrFile? then [target.link] else [],
               if ok && target.Torrent? then 1 else 0);
    }
  }

  /** The first link fails: it is recorded as failed and the rest as not attempted. */
  lemma HeadFailedGrew(env: Env, log: Log, id: ActionId, links: seq<Link>)
    requires AllStored(env) && links != []
    requires !Attempt(env, log, id, ArrFile(links[0]), MAX_ATTEMPTS).1
    ensures Grew(log, ArrDeletes(env, log, id, links).0, id,
                 [LinkRow(id, links[0], Failed)] + LinkRows(id, links[1..], NotAttempted), [], 0)
  {
    var row := LinkRow(id, links[0], Failed);
    var log1 := Attempt(env, log, id, ArrFile(links[0]), MAX_ATTEMPTS).0;
    var log2 := Audit(env, log1, row);
    AttemptGrew(env, log, id, ArrFile(links[0]), MAX_ATTEMPTS);
    AuditGrew(env, log1, id, row);
    RemainingGrew(env, log2, id, links[1..]);
    var na := LinkRows(id, links[1..], NotAttempted);
    GrewJoin(log1, log2, ArrDeletes(env, log, id, links).0, id, [row], [], 0, na, [], 0);
    GrewJoin(log, log1, ArrDeletes(env, log, id, links).0, id, [], [], 0, [row] + na, [] + [], 0);
    assert [] + ([row] + na) == [row] + na;
  }

  /** The first link is deleted: one ok row, one deletion. */
  lemma HeadDeletedGrew(env: Env, log: Log, id: ActionId, lk: Link)
    requires AllStored(env)
    requires Attempt(env, log, id, ArrFile(lk), MAX_ATTEMPTS).1
    ensures var log1 := Attempt(env, log, id, ArrFile(lk), MAX_ATTEMPTS).0;
            Grew(log, Audit(env, log1, LinkRow(id, lk, OK)), id, [LinkRow(id, lk, OK)], [lk], 0)
  {
    var row := LinkRow(id, lk, OK);
    var log1 := Attempt(env, log, id, ArrFile(lk), MAX_ATTEMPTS).0;
    AttemptGrew(env, log, id, ArrFile(lk), MAX_ATTEMPTS);
    AuditGrew(env, log1, id, row);
    GrewJoin(log, log1, Audit(env, log1, row), id, [], [lk], 0, [row], [], 0);
    assert [] + [row] == [row] && [lk] + [] == [lk];
  }

  lemma ArrFailedLater(id: ActionId, links: seq<Link>, before: nat)
    requires links != [] && before < |links| - 1
    ensures [LinkRow(id, links[0], OK)] + StoryRows(id, ArrFailed(links[1..], before))
            == StoryRows(id, ArrFailed(links, before + 1))
    ensures [links[0]] + links[1..][..before] == links[..before + 1]
  {
    var rest, at := links[1..], before + 1;
    var row, oks := LinkRow(id, links[0], OK), LinkRows(id, rest[..before], OK);
    var failed, left := LinkRow(id, rest[before], Failed), LinkRows(id, rest[before + 1..], NotAttempted);
    assert links[..at] == [links[0]] + rest[..before];
    assert LinkRows(id, links[..at], OK) == [row] + oks;
    assert rest[before + 1..] == links[at + 1..] && rest[before] == links[at];
    assert [row] + (oks + [failed] + left) == ([row] + oks) + [failed] + left;
  }

  /** The delete pass: all links deleted in order, or a prefix, one failure and the rest untried. */
  lemma {:induction false} ArrDeletesGrew(env: Env, log: Log, id: ActionId, links: seq<Link>)
    returns (at: nat)
    requires AllStored(env)
    ensures var (r, ok) := ArrDeletes(env, log, id, links);
            if ok then Grew(log, r, id, LinkRows(id, links, OK), links, 0)
            else at < |links| && Grew(log, r, id, StoryRows(id, ArrFailed(links, at)), links[..at], 0)
    decreases |links|
  {
    at := 0;
    if links == [] { return; }
    var lk, rest := links[0], links[1..];
    var row := LinkRow(id, lk, OK);
    var (r, done) := ArrDeletes(env, log, id, links);
    var (log1, ok) := Attempt(env, log, id, ArrFile(lk), MAX_ATTEMPTS);
    if !ok {
      HeadFailedGrew(env, log, id, links);
      FailedAtOnce(id, links);
      return;
    }
    var log2 := Audit(env, log1, row);
    HeadDeletedGrew(env, log, id, lk);
    var before := ArrDeletesGrew(env, log2, id, rest);
    if done {
      ThenAllDeleted(log, log2, r, id, links);
    } else {
      at := before + 1;
      ThenOneFailed(log, log2, r, id, links, before);
    }
  }

  lemma FailedAtOnce(id: ActionId, links: seq<Link>)
    requires links != []
    ensures StoryRows(id, ArrFailed(links, 0))
         == [LinkRow(id, links[0], Failed)] + LinkRows(id, links[1..], NotAttempted)
  {
    var none, one := LinkRows(id, links[..0], OK), [LinkRow(id, links[0], Failed)];
    assert none == [];
    assert none + one == one;
  }

  lemma ThenAllDeleted(log: Log, log2: Log, r: Log, id: ActionId, links: seq<Link>)
    requires links != [] && Grew(log, log2, id, [LinkRow(id, links[0], OK)], [links[0]], 0)
    requires Grew(log2, r, id, LinkRows(id, links[1..], OK), links[1..], 0)
    ensures Grew(log, r, id, LinkRows(id, links, OK), links, 0)
  {
    var row, rest := LinkRow(id, links[0], OK), links[1..];
    GrewJoin(log, log2, r, id, [row], [links[0]], 0, LinkRows(id, rest, OK), rest, 0);
    assert [row] + LinkRows(id, rest, OK) == LinkRows(id, links, OK);
    assert [links[0]] + rest == links;
  }

  lemma ThenOneFailed(log: Log, log2: Log, r: Log, id: ActionId, links: seq<Link>, before: nat)
    requires before < |links| - 1 && Grew(log, log2, id, [LinkRow(id, links[0], OK)], [links[0]], 0)
    requires Grew(log2, r, id, StoryRows(id, ArrFailed(links[1..], before)), links[1..][..before], 0)
    ensures Grew(log, r, id, StoryRows(id, ArrFailed(links, before + 1)), links[..before + 1], 0)
  {
    GrewJoin(log, log2, r, id, [LinkRow(id, links[0], OK)], [links[0]], 0,
             StoryRows(id, ArrFailed(links[1..], before)), links[1..][..before], 0);
    ArrFailedLater(id, links, before);
  }

  /** Only stats: nothing any record sees. */
  lemma {:induction false} SweepGrew(env: Env, log: Log, id: ActionId, dir: Path, files: seq<string>)
    ensures Grew(log, Sweep(env, log, id, dir, files).0, id, [], [], 0)
    decreases |files|
  {
    if files != [] {
      var r := if env.statFails(|log|) then StatError else env.fs(|log|).Stat(Join(dir, files[0]));
      var e := Stated(id, Join(dir, files[0]), r);
      RecordStep(log, e, id);
      if r.Absent? || (r.Linked? && r.nlink <= 1) {
        SweepGrew(env, log + [e], id, dir, files[1..]);
        GrewJoin(log, log + [e], Sweep(env, log, id, dir, files).0, id, [], [], 0, [], [], 0);
      }
    }
  }

  lemma SweptGrew(env: Env, log: Log, log2: Log, id: ActionId, dir: Path, files: seq<string>, row: Row)
    requires AllStored(env) && row.action == id && Grew(log, log2, id, [], [], 0)
    ensures Grew(log, Audit(env, Sweep(env, log2, id, dir, files).0, row), id, [row], [], 0)
  {
    var log3 := Sweep(env, log2, id, dir, files).0;
    var r := Audit(env, log3, row);
    SweepGrew(env, log2, id, dir, files);
    AuditGrew(env, log3, id, row);
    GrewJoin(log2, log3, r, id, [], [], 0, [row], [], 0);
    GrewJoin(log, log2, r, id, [], [], 0, [] + [row], [] + [], 0);
    assert [] + ([] + [row]) == [row];
  }

  lemma CheckGrew(env: Env, log: Log, id: ActionId)
    requires AllStored(env)
    ensures var (r, v) := CheckNlink(env, log, id);
            Grew(log, r, id, [CheckRow(id, v)], [], 0)
  {
    var (r, v) := CheckNlink(env, log, id);
    var row := CheckRow(id, v);
    var dir := env.savePath(|log|);
    var log1 := log + [SavePathRead(id, dir)];
    RecordStep(log, SavePathRead(id, dir), id);
    var files := env.files(|log1|);
    var log2 := log1 + [FilesRead(id, files)];
    if dir == None {
      AuditedGrew(env, log, log1, id, row);
    } else {
      RecordStep(log1, FilesRead(id, files), id);
      GrewAfterNothing(log, log1, log2, id, [], []);
      if files == None || files.value == [] {
        AuditedGrew(env, log, log2, id, row);
      } else {
        SweptGrew(env, log, log2, id, dir.value, files.value, row);
      }
    }
  }

  lemma AuditedGrew(env: Env, log: Log, mid: Log, id: ActionId, row: Row)
    requires AllStored(env) && row.action == id && Grew(log, mid, id, [], [], 0)
    ensures Grew(log, Audit(env, mid, row), id, [row], [], 0)
  {
    AuditGrew(env, mid, id, row);
    GrewAfterNothing(log, mid, Audit(env, mid, row), id, [row], []);
  }

  /** The delete fan-out, including a link without a deleter. */
  lemma FanoutGrew(env: Env, log: Log, id: ActionId, links: seq<Link>) returns (s: Story)
    requires AllStored(env)
    ensures var (r, ok) := Fanout(env, log, id, links);
            if ok then Grew(log, r, id, LinkRows(id, links, OK), links, 0)
            else (s.Unactable? || s.ArrFailed?) && s.links == links && WellFormed(s)
                 && Grew(log, r, id, StoryRows(id, s), StoryDeleted(s), 0)
                 && (s.Unactable? ==> SameTried(log, r, id))
    ensures var (r, ok) := Fanout(env, log, id, links);
            if ok then forall x :: x in links ==> env.actable(x.kind)
            else s.Unactable? <==> exists x :: x in links && !env.actable(x.kind)
  {
    var i := FirstUnactable(env, links);
    s := Unactable(links, i);
    if i < |links| {
      var row := LinkRow(id, links[i], Skipped);
      var log1 := Audit(env, log, row);
      AuditGrew(env, log, id, row);
      RemainingGrew(env, log1, id, links[i+1..]);
      GrewJoin(log, log1, Fanout(env, log, id, links).0, id, [row], [], 0,
               LinkRows(id, links[i+1..], NotAttempted), [], 0);
    } else {
      var at := ArrDeletesGrew(env, log, id, links);
      if !ArrDeletes(env, log, id, links).1 { s := ArrFailed(links, at); }
    }
  }

  // ---------------------------------------------------------------- whole actions

  ghost predicate OwnedBy(log: Log, more: Log, id: ActionId) {
    log <= more && forall k :: |log| <= k < |more| ==> Owner(more, k) == Some(id)
  }

  /** Every entry belongs to an action inserted no later. */
  ghost predicate Ordered(log: Log) {
    forall k :: 0 <= k < |log| && Owner(log, k).Some? ==> Owner(log, k).value <= k
  }

  lemma FreshIsBlank(log: Log)
    requires Ordered(log)
    ensures RecordOf(log, |log|) == Record([], [], 0, 0, [])
  {
    assert [] <= log;
    Untouched([], log, |log|);
  }

  /** What the links query answered in a story. */
  function LinksOf(s: Story): Option<seq<Link>> {
    if s.LinksUnknown? then None else Some(s.links)
  }

  /** The stored record of action `k` is faithful: it tells one story, the one whose links
      were read, and no *arr delete was issued when some link had no deleter. */
  ghost predicate ToldBy(env: Env, log: Log, k: nat, s: Story) {
    && k + 1 < |log| && log[k + 1] == LinksRead(k, LinksOf(s))
    && Tells(RecordOf(log, k), k, s)
    && (LinksOf(s).Some? ==>
          (s.Unactable? <==> exists x :: x in LinksOf(s).value && !env.actable(x.kind)))
  }

  ghost predicate Told(env: Env, log: Log, k: nat) {
    exists s :: ToldBy(env, log, k, s)
  }

  /** A stored terminal status with the bytes it claims. */
  datatype End = End(status: ActionStatus, freed: int)

  function EndOf(item: Item, status: ActionStatus): End {
    End(status, if status == Succeeded then item.size else 0)
  }

  /** The action's claim: one terminal status, with the torrent's size if and only if reaped. */
  ghost predicate Claims(log: Log, more: Log, item: Item, s: Story) {
    Collect(more, Claim()) == Collect(log, Claim()) + [EndOf(item, Fate(s))]
  }

  function Claim(): Event -> Option<End> {
    (e: Event) => if e.Finished? && e.stored then Some(End(e.status, e.freed)) else None
  }

  function Chosen(): Event -> Option<Item> {
    (e: Event) => if e.Inserted? then Some(e.item) else None
  }

  function Fate(s: Story): ActionStatus {
    match s
    case LinksUnknown => AbortedArrFail
    case Unactable(_, _) => AbortedArrFail
    case ArrFailed(_, _) => AbortedArrFail
    case Unverified(_) => AbortedNlinkCheck
    case CrossSeeded(_) => SkippedCrossSeed
    case QbitFailed(_) => FailedQbit
    case Reaped(_) => Succeeded
  }

  /** The rows of a story determine how it ended. */
  lemma StoryStatus(id: ActionId, s: Story)
    requires WellFormed(s)
    ensures StatusOf(StoryRows(id, s)) == Fate(s)
  {
  }

  /** Closing an action whose record has grown to the rows of story `s`. */
  lemma Conclude(env: Env, log: Log, mid: Log, id: ActionId, s: Story, freed: int)
    requires AllStored(env) && WellFormed(s)
    requires RecordOf(log, id) == Record([], [], 0, 0, [])
    requires Grew(log, mid, id, StoryRows(id, s), StoryDeleted(s), if s.Reaped? then 1 else 0)
    requires s.Unactable? || s.LinksUnknown? ==> SameTried(log, mid, id)
    ensures var r := Finish(env, mid, id, Fate(s), freed);
            OwnedBy(log, r, id) && Tells(RecordOf(r, id), id, s)
            && Collect(r, Claim()) == Collect(log, Claim()) + [End(Fate(s), freed)]
  {
    var e := Finished(id, Fate(s), freed, true);
    FinishOwned(log, mid, id, e);
    FinishTells(log, mid, id, s, e);
    assert Finish(env, mid, id, Fate(s), freed) == mid + [e];
  }

  /** The record with its one status tells the story. */
  lemma FinishTells(log: Log, mid: Log, id: ActionId, s: Story, e: Event)
    requires WellFormed(s) && RecordOf(log, id) == Record([], [], 0, 0, [])
    requires Grew(log, mid, id, StoryRows(id, s), StoryDeleted(s), if s.Reaped? then 1 else 0)
    requires s.Unactable? || s.LinksUnknown? ==> SameTried(log, mid, id)
    requires e.Finished? && e.stored && e.action == id && e.status == Fate(s)
    ensures Tells(RecordOf(mid + [e], id), id, s)
  {
    var rows, deleted := StoryRows(id, s), StoryDeleted(s);
    assert [] + rows == rows && [] + deleted == deleted;
    StoryStatus(id, s);
    RecordStep(mid, e, id);
    StatusIsFate(rows, s, Fate(s));
  }

  lemma StatusIsFate(rows: seq<Row>, s: Story, status: ActionStatus)
    requires StatusOf(rows) == Fate(s) == status
    ensures StatusOf(rows) == Succeeded <==> s.Reaped?
  {
  }

  lemma FinishOwned(log: Log, mid: Log, id: ActionId, e: Event)
    requires log <= mid && forall k :: |log| <= k < |mid| ==> Owner(mid, k) == Some(id) && !mid[k].Finished?
    requires e.Finished? && e.stored && e.action == id
    ensures OwnedBy(log, mid + [e], id)
    ensures Collect(mid + [e], Claim()) == Collect(log, Claim()) + [End(e.status, e.freed)]
  {
    CollectNone(log, mid, Claim());
    CollectOne(mid, e, Claim());
    var r := mid + [e];
    forall k | |log| <= k < |r| ensures Owner(r, k) == Some(id) {
      if k < |mid| { assert r[k] == mid[k]; assert Owner(mid, k) == Some(id); }
    }
  }

  /** The qBittorrent delete and its row complete the rows of QbitFailed or Reaped. */
  lemma QbitGrew(env: Env, log: Log, mid: Log, id: ActionId, hash: Hash, links: seq<Link>)
    requires AllStored(env)
    requires Grew(log, mid, id, LinkRows(id, links, OK) + [CheckRow(id, Clear)], links, 0)
    ensures var (log1, ok) := Attempt(env, mid, id, Torrent(hash), MAX_ATTEMPTS);
            Grew(log, Audit(env, log1, QbitRow(id, ok)), id,
                 LinkRows(id, links, OK) + [CheckRow(id, Clear)] + [QbitRow(id, ok)],
                 links, if ok then 1 else 0)
  {
    var (log1, ok) := Attempt(env, mid, id, Torrent(hash), MAX_ATTEMPTS);
    var row := QbitRow(id, ok);
    AttemptGrew(env, mid, id, Torrent(hash), MAX_ATTEMPTS);
    AuditGrew(env, log1, id, row);
    var reaped := if ok then 1 else 0;
    var rows := LinkRows(id, links, OK) + [CheckRow(id, Clear)];
    GrewJoin(mid, log1, Audit(env, log1, row), id, [], [], reaped, [row], [], 0);
    GrewJoin(log, mid, Audit(env, log1, row), id, rows, links, 0, [] + [row], [] + [], reaped + 0);
    assert [] + [row] == [row] && links + ([] + []) == links;
  }

  lemma ForgetHides(log: Log, done: Log, id: ActionId, stored: bool)
    requires OwnedBy(log, done, id)
    ensures OwnedBy(log, done + [Forgot(id, stored)], id)
    ensures RecordOf(done + [Forgot(id, stored)], id) == RecordOf(done, id)
    ensures Collect(done + [Forgot(id, stored)], Claim()) == Collect(done, Claim())
  {
    RecordStep(done, Forgot(id, stored), id);
    CollectOne(done, Forgot(id, stored), Claim());
    var r := done + [Forgot(id, stored)];
    forall k | |log| <= k < |r| ensures Owner(r, k) == Some(id) {
      if k < |done| { assert r[k] == done[k]; assert Owner(done, k) == Some(id); }
    }
  }

  /** The reap after a clear check. */
  lemma ReapTold(env: Env, log: Log, mid: Log, id: ActionId, item: Item, links: seq<Link>)
    returns (s: Story)
    requires AllStored(env)
    requires RecordOf(log, id) == Record([], [], 0, 0, [])
    requires Grew(log, mid, id, LinkRows(id, links, OK) + [CheckRow(id, Clear)], links, 0)
    ensures var r := Reap(env, mid, id, item);
            OwnedBy(log, r, id) && LinksOf(s) == Some(links) && !s.Unactable?
            && Tells(RecordOf(r, id), id, s) && Claims(log, r, item, s)
  {
    var (log1, ok) := Attempt(env, mid, id, Torrent(item.hash), MAX_ATTEMPTS);
    var log2 := Audit(env, log1, QbitRow(id, ok));
    s := if ok then Reaped(links) else QbitFailed(links);
    QbitGrew(env, log, mid, id, item.hash, links);
    StoryStatus(id, s);
    Conclude(env, log, log2, id, s, if ok then item.size else 0);
    if ok {
      var log3 := Finish(env, log2, id, Succeeded, item.size);
      ForgetHides(log, log3, id, env.stored(|log3|));
    }
  }

  lemma OpeningGrew(log: Log, item: Item, links: Option<seq<Link>>)
    ensures var id := |log|;
            Grew(log, log + [Inserted(item, true)] + [LinksRead(id, links)], id, [], [], 0)
            && SameTried(log, log + [Inserted(item, true)] + [LinksRead(id, links)], id)
  {
    var id := |log|;
    var log1 := log + [Inserted(item, true)];
    RecordStep(log, Inserted(item, true), id);
    RecordStep(log1, LinksRead(id, links), id);
    var log2 := log1 + [LinksRead(id, links)];
    assert log2[|log|] == Inserted(item, true);
  }

  lemma UnknownTold(env: Env, log: Log, log2: Log, id: ActionId)
    requires AllStored(env) && RecordOf(log, id) == Record([], [], 0, 0, [])
    requires Grew(log, log2, id, [], [], 0) && SameTried(log, log2, id)
    ensures var r := Finish(env, Audit(env, log2, Row(id, ArrDelete, "", 0, Failed)), id, AbortedArrFail, 0);
            OwnedBy(log, r, id) && log2 <= r && Tells(RecordOf(r, id), id, LinksUnknown)
            && Collect(r, Claim()) == Collect(log, Claim()) + [End(AbortedArrFail, 0)]
  {
    var row := Row(id, ArrDelete, "", 0, Failed);
    AuditGrew(env, log2, id, row);
    GrewJoin(log, log2, Audit(env, log2, row), id, [], [], 0, [row], [], 0);
    assert [] + [row] == StoryRows(id, LinksUnknown) && [] + [] == StoryDeleted(LinksUnknown);
    StoryStatus(id, LinksUnknown);
    Conclude(env, log, Audit(env, log2, row), id, LinksUnknown, 0);
  }

  lemma GrewAfterNothing(log: Log, log2: Log, log3: Log, id: ActionId, rows: seq<Row>, deleted: seq<Link>)
    requires Grew(log, log2, id, [], [], 0) && Grew(log2, log3, id, rows, deleted, 0)
    ensures Grew(log, log3, id, rows, deleted, 0)
  {
    GrewJoin(log, log2, log3, id, [], [], 0, rows, deleted, 0);
    assert [] + rows == rows && [] + deleted == deleted;
  }

  lemma UnfannedTold(env: Env, log: Log, log2: Log, log3: Log, id: ActionId, s: Story)
    requires AllStored(env) && RecordOf(log, id) == Record([], [], 0, 0, [])
    requires (s.Unactable? || s.ArrFailed?) && WellFormed(s)
    requires Grew(log, log2, id, [], [], 0) && SameTried(log, log2, id)
    requires Grew(log2, log3, id, StoryRows(id, s), StoryDeleted(s), 0)
    requires s.Unactable? ==> SameTried(log2, log3, id)
    ensures var r := Finish(env, log3, id, AbortedArrFail, 0);
            OwnedBy(log, r, id) && log2 <= r && Tells(RecordOf(r, id), id, s)
            && Collect(r, Claim()) == Collect(log, Claim()) + [End(AbortedArrFail, 0)]
  {
    GrewAfterNothing(log, log2, log3, id, StoryRows(id, s), StoryDeleted(s));
    StoryStatus(id, s);
    Conclude(env, log, log3, id, s, 0);
  }

  /** One candidate, start to end. */
  lemma CandidateTold(env: Env, log: Log, item: Item) returns (s: Story)
    requires AllStored(env) && Ordered(log)
    ensures var r := Candidate(env, log, item);
            && OwnedBy(log, r, |log|) && |r| > |log| && r[|log|] == Inserted(item, true)
            && ToldBy(env, r, |log|, s) && Claims(log, r, item, s)
  {
    var id := |log|;
    FreshIsBlank(log);
    var log1 := log + [Inserted(item, true)];
    var links := env.links(|log1|);
    var log2 := log1 + [LinksRead(id, links)];
    OpeningGrew(log, item, links);
    assert log2[id] == log1[id] && log2[id + 1] == LinksRead(id, links);
    if links == None {
      s := LinksUnknown;
      UnknownTold(env, log, log2, id);
    } else {
      s := LinkedTold(env, log, log2, id, item, links.value);
    }
  }

  /** The action is over: `r` tells the story `s` of its links. */
  ghost predicate Completed(env: Env, log: Log, mid: Log, r: Log, id: ActionId, item: Item, links: seq<Link>,
                            s: Story)
  {
    && OwnedBy(log, r, id) && mid <= r && LinksOf(s) == Some(links)
    && (s.Unactable? <==> exists x :: x in links && !env.actable(x.kind))
    && Tells(RecordOf(r, id), id, s) && Claims(log, r, item, s)
  }

  /** Once its links are known. */
  lemma LinkedTold(env: Env, log: Log, log2: Log, id: ActionId, item: Item, links: seq<Link>) returns (s: Story)
    requires AllStored(env) && RecordOf(log, id) == Record([], [], 0, 0, [])
    requires Grew(log, log2, id, [], [], 0) && SameTried(log, log2, id)
    ensures Completed(env, log, log2, ActOnLinks(env, log2, id, item, links), id, item, links, s)
  {
    var (log3, ok) := Fanout(env, log2, id, links);
    s := FanoutGrew(env, log2, id, links);
    if ok {
      s := CheckedCompleted(env, log, log2, log3, id, item, links);
    } else {
      UnfannedCompleted(env, log, log2, log3, id, item, links, s);
    }
  }

  lemma UnfannedCompleted(env: Env, log: Log, log2: Log, log3: Log, id: ActionId, item: Item, links: seq<Link>,
                          s: Story)
    requires AllStored(env) && RecordOf(log, id) == Record([], [], 0, 0, [])
    requires (s.Unactable? || s.ArrFailed?) && WellFormed(s) && s.links == links
    requires Grew(log, log2, id, [], [], 0) && SameTried(log, log2, id)
    requires Grew(log2, log3, id, StoryRows(id, s), StoryDeleted(s), 0)
    requires s.Unactable? ==> SameTried(log2, log3, id)
    requires s.Unactable? <==> exists x :: x in links && !env.actable(x.kind)
    ensures Completed(env, log, log2, Finish(env, log3, id, AbortedArrFail, 0), id, item, links, s)
  {
    UnfannedTold(env, log, log2, log3, id, s);
  }

  lemma CheckedCompleted(env: Env, log: Log, log2: Log, log3: Log, id: ActionId, item: Item, links: seq<Link>)
    returns (s: Story)
    requires AllStored(env) && RecordOf(log, id) == Record([], [], 0, 0, [])
    requires Grew(log, log2, id, [], [], 0) && Grew(log2, log3, id, LinkRows(id, links, OK), links, 0)
    requires forall x :: x in links ==> env.actable(x.kind)
    ensures Completed(env, log, log2, CheckAndSettle(env, log3, id, item), id, item, links, s)
  {
    s := CheckedTold(env, log, log2, log3, id, item, links);
  }

  lemma CheckedTold(env: Env, log: Log, log2: Log, log3: Log, id: ActionId, item: Item, links: seq<Link>)
    returns (s: Story)
    requires AllStored(env) && RecordOf(log, id) == Record([], [], 0, 0, [])
    requires Grew(log, log2, id, [], [], 0) && Grew(log2, log3, id, LinkRows(id, links, OK), links, 0)
    ensures var r := CheckAndSettle(env, log3, id, item);
            OwnedBy(log, r, id) && log3 <= r && LinksOf(s) == Some(links) && !s.Unactable?
            && Tells(RecordOf(r, id), id, s) && Claims(log, r, item, s)
  {
    var (log4, v) := CheckNlink(env, log3, id);
    CheckedGrew(env, log, log2, log3, id, links);
    s := SettleTold(env, log, log4, id, item, links, v);
    SettleGrows(env, log4, id, item, v);
  }

  /** After every link was deleted and the link counts were looked at. */
  lemma CheckedGrew(env: Env, log: Log, log2: Log, log3: Log, id: ActionId, links: seq<Link>)
    requires AllStored(env)
    requires Grew(log, log2, id, [], [], 0) && Grew(log2, log3, id, LinkRows(id, links, OK), links, 0)
    ensures var (log4, v) := CheckNlink(env, log3, id);
            log3 <= log4 && Grew(log, log4, id, LinkRows(id, links, OK) + [CheckRow(id, v)], links, 0)
  {
    var (log4, v) := CheckNlink(env, log3, id);
    CheckGrew(env, log3, id);
    var oks := LinkRows(id, links, OK);
    GrewJoin(log, log2, log3, id, [], [], 0, oks, links, 0);
    GrewJoin(log, log3, log4, id, [] + oks, [] + links, 0, [CheckRow(id, v)], [], 0);
    assert [] + oks + [CheckRow(id, v)] == oks + [CheckRow(id, v)] && [] + links + [] == links;
  }

  lemma SettleGrows(env: Env, log: Log, id: ActionId, item: Item, v: Verdict)
    ensures log <= Settle(env, log, id, item, v)
  {
    if v == Clear { AttemptKeeps(env, log, id, Torrent(item.hash), MAX_ATTEMPTS); }
  }

  lemma {:induction false} AttemptKeeps(env: Env, log: Log, id: ActionId, target: Target, k: nat)
    requires k > 0
    ensures log <= Attempt(env, log, id, target, k).0
    decreases k
  {
    var o := env.deletion(|log|);
    if o == Transient && k > 1 { AttemptKeeps(env, log + [Deleted(id, target, o)], id, target, k - 1); }
  }

  /** However the check went, the action's record tells its story. */
  lemma SettleTold(env: Env, log: Log, log4: Log, id: ActionId, item: Item, links: seq<Link>, v: Verdict)
    returns (s: Story)
    requires AllStored(env) && RecordOf(log, id) == Record([], [], 0, 0, [])
    requires Grew(log, log4, id, LinkRows(id, links, OK) + [CheckRow(id, v)], links, 0)
    ensures var r := Settle(env, log4, id, item, v);
            OwnedBy(log, r, id) && LinksOf(s) == Some(links) && !s.Unactable?
            && Tells(RecordOf(r, id), id, s) && Claims(log, r, item, s)
  {
    if v == Clear {
      s := ReapTold(env, log, log4, id, item, links);
    } else {
      s := if v == Conflict then CrossSeeded(links) else Unverified(links);
      StoryStatus(id, s);
      Conclude(env, log, log4, id, s, 0);
    }
  }
}
