/**
 * The durable command queue: a table of rows that several processes change through small
 * transactions. Every repository method is one atomic step with one clock reading.
 *
 * The functions say what a transaction does to the table; the class `Repository` performs the
 * same updates in place. What the protocol guarantees over whole runs is in `QueueRuns`.
 */
module CommandQueue {
  import opened Wrappers

  datatype Status = Queued | Running | Succeeded | Failed | Unknown | Cancelled

  datatype Delivery = Pending | Sending | Sent | Undelivered | Skipped

  datatype Source = Telegram | Test

  /** `update:<id>` for a Telegram update, `test:<digest>` for a request of the admin API. */
  datatype Dedupe = Update(updateId: nat) | TestKey(digest: string)

  datatype Row = Row(
    bot: string, dedupe: Dedupe, actor: string, kind: string, source: Source,
    createdAt: int, expiresAt: int,
    status: Status, result: Option<string>, error: Option<string>, durationMs: Option<int>,
    startedAt: Option<int>, finishedAt: Option<int>,
    owner: Option<string>, lease: Option<int>,
    delivery: Delivery, attempts: nat, deliveryAfter: Option<int>)

  /** Execution ids, ordered as the primary key orders them. */
  type Id = nat

  type Table = map<Id, Row>

  /** Limits as the configuration bounds them. */
  datatype Policy = Policy(maxWorkers: nat, pythonWorkers: nat, queueLimit: nat, rateLimit: nat, retentionDays: nat)

  /** What an executor can report: the three statuses a worker passes to `complete`. */
  datatype Outcome = Success | Failure | Interrupted

  const RATE_WINDOW: int := 60
  const RUN_LEASE: int := 90
  const SEND_LEASE: int := 30
  const RETRY_DELAY: int := 5
  const MAX_ATTEMPTS: nat := 3
  const DAY: int := 86400

  predicate Terminal(s: Status) { s != Queued && s != Running }

  predicate Live(s: Status) { !Terminal(s) }

  // ----- recovery of expired leases and expired queue entries -----

  function InterruptRow(row: Row, bot: string, now: int): Row {
    if row.bot == bot && row.status == Running && row.lease.Some? && row.lease.value < now then
      row.(status := Unknown, error := Some("EXECUTION_INTERRUPTED"), finishedAt := Some(now),
           owner := None, lease := None)
    else row
  }

  function ExpireRow(row: Row, bot: string, now: int): Row {
    if row.bot == bot && row.status == Queued && row.expiresAt < now then
      row.(status := Cancelled, error := Some("QUEUE_EXPIRED"), finishedAt := Some(now))
    else row
  }

  function AbandonRow(row: Row, bot: string, now: int): Row {
    if row.bot == bot && row.delivery == Sending && row.lease.Some? && row.lease.value < now then
      row.(delivery := Undelivered, owner := None, lease := None)
    else row
  }

  function RecoverRow(row: Row, bot: string, now: int): Row {
    AbandonRow(ExpireRow(InterruptRow(row, bot, now), bot, now), bot, now)
  }

  function Recovered(rows: Table, bot: string, now: int): Table {
    map id | id in rows :: RecoverRow(rows[id], bot, now)
  }

  // ----- admission -----

  datatype Admission =
    | Created
    | Existing(id: Id)
    | Busy
    | RateLimited
    | Unavailable   // the insert itself failed: primary key already taken

  function Holders(rows: Table, bot: string, dedupe: Dedupe): set<Id> {
    set id | id in rows && rows[id].bot == bot && rows[id].dedupe == dedupe
  }

  function Admitted(rows: Table, bot: string): set<Id> {
    set id | id in rows && rows[id].bot == bot && Live(rows[id].status)
  }

  function Recent(rows: Table, bot: string, actor: string, since: int): set<Id> {
    set id | id in rows && rows[id].bot == bot && rows[id].actor == actor && rows[id].createdAt >= since
  }

  /** Whether `a` is an answer that admission of `item` under key `id` may give. */
  predicate AdmissionAnswer(rows: Table, id: Id, item: Row, now: int, policy: Policy, a: Admission) {
    if Holders(rows, item.bot, item.dedupe) != {} then
      a.Existing? && a.id in Holders(rows, item.bot, item.dedupe)
    else if |Admitted(rows, item.bot)| >= policy.queueLimit then a == Busy
    else if |Recent(rows, item.bot, item.actor, now - RATE_WINDOW)| >= policy.rateLimit then a == RateLimited
    else a == if id in rows then Unavailable else Created
  }

  /**
   * A request is answered by its earlier row if there is one; else it is refused as busy exactly if as many
   * rows of the bot as permitted are queued or running, and then as too frequent exactly if the actor has as
   * many rows of the last sixty seconds as permitted; else it is stored.
   */
  lemma AdmissionIsDecided(rows: Table, id: Id, item: Row, now: int, policy: Policy, a: Admission)
    ensures AdmissionAnswer(rows, id, item, now, policy, a)
            <==> var same := set i | i in rows && rows[i].bot == item.bot && rows[i].dedupe == item.dedupe;
                 var live := set i | i in rows && rows[i].bot == item.bot && rows[i].status in [Queued, Running];
                 var recent := set i | i in rows && rows[i].bot == item.bot && rows[i].actor == item.actor
                                                 && now <= rows[i].createdAt + 60;
                 && (a.Existing? <==> same != {}) && (a.Existing? ==> a.id in same)
                 && (a.Busy? <==> same == {} && |live| >= policy.queueLimit)
                 && (a.RateLimited? <==> same == {} && |live| < policy.queueLimit && |recent| >= policy.rateLimit)
                 && (a.Unavailable? ==> id in rows) && (a.Created? ==> id !in rows)
  {
    assert Admitted(rows, item.bot) == set i | i in rows && rows[i].bot == item.bot && rows[i].status in [Queued, Running];
    assert Recent(rows, item.bot, item.actor, now - RATE_WINDOW)
        == set i | i in rows && rows[i].bot == item.bot && rows[i].actor == item.actor && now <= rows[i].createdAt + 60;
  }

  /** A row as the service builds it before admission. */
  predicate Fresh(row: Row) {
    && row.status == Queued && row.result == None && row.error == None && row.durationMs == None
    && row.startedAt == None && row.finishedAt == None && row.owner == None && row.lease == None
    && row.attempts == 0 && row.deliveryAfter == None
    && row.delivery == (if row.source == Telegram then Pending else Skipped)
    && (row.source == Telegram <==> row.dedupe.Update?)
  }

  // ----- claiming work -----

  function Active(rows: Table, bot: string): set<Id> {
    set id | id in rows && rows[id].bot == bot && rows[id].status == Running
  }

  function PythonActive(rows: Table, bot: string): set<Id> {
    set id | id in Active(rows, bot) && rows[id].kind == "python"
  }

  function Waiting(rows: Table, bot: string): set<Id> {
    set id | id in rows && rows[id].bot == bot && rows[id].status == Queued
  }

  function BusyActors(rows: Table, bot: string): set<string> {
    set id | id in Active(rows, bot) :: rows[id].actor
  }

  predicate Blocked(row: Row, busy: set<string>, pythonBusy: bool) {
    row.actor in busy || (pythonBusy && row.kind == "python")
  }

  predicate Held(rows: Table, bot: string, policy: Policy, id: Id)
    requires id in rows
  {
    Blocked(rows[id], BusyActors(rows, bot), |PythonActive(rows, bot)| >= policy.pythonWorkers)
  }

  predicate Before(rows: Table, a: Id, b: Id)
    requires a in rows && b in rows
  {
    rows[a].createdAt < rows[b].createdAt || (rows[a].createdAt == rows[b].createdAt && a < b)
  }

  ghost predicate IsLeast(rows: Table, ids: set<Id>, m: Id)
    requires ids <= rows.Keys
  {
    m in ids && forall j :: j in ids && j != m ==> Before(rows, m, j)
  }

  lemma {:induction false} LeastExists(rows: Table, ids: set<Id>)
    requires ids <= rows.Keys && ids != {}
    ensures exists m :: IsLeast(rows, ids, m)
  {
    var m :| m in ids;
    if ids == {m} {
      assert IsLeast(rows, ids, m);
    } else {
      LeastExists(rows, ids - {m});
      var r :| IsLeast(rows, ids - {m}, r);
      var least := if Before(rows, r, m) then r else m;
      forall j | j in ids && j != least
        ensures Before(rows, least, j)
      {
        assert j != m ==> j in ids - {m};
      }
      assert IsLeast(rows, ids, least);
    }
  }

  function Least(rows: Table, ids: set<Id>): (m: Id)
    requires ids <= rows.Keys && ids != {}
    ensures IsLeast(rows, ids, m)
  {
    LeastExists(rows, ids);
    var m :| m in ids && forall j :: j in ids && j != m ==> Before(rows, m, j);
    m
  }

  /** `ORDER BY created_at, id`. */
  function Sorted(rows: Table, ids: set<Id>): (s: seq<Id>)
    requires ids <= rows.Keys
    ensures |s| == |ids|
    ensures forall id :: id in s <==> id in ids
    ensures forall i, j :: 0 <= i < j < |s| ==> Before(rows, s[i], s[j])
  {
    if ids == {} then []
    else
      var m := Least(rows, ids);
      [m] + Sorted(rows, ids - {m})
  }

  function Candidates(rows: Table, bot: string, limit: nat): (s: seq<Id>)
    ensures forall id :: id in s ==> id in Waiting(rows, bot)
  {
    var s := Sorted(rows, Waiting(rows, bot));
    if |s| <= limit then s else s[..limit]
  }

  function FirstFree(rows: Table, ids: seq<Id>, busy: set<string>, pythonBusy: bool): (r: Option<Id>)
    requires forall id :: id in ids ==> id in rows
    ensures r.Some? ==> r.value in ids
  {
    if ids == [] then None
    else
      assert ids[0] in ids;
      assert ids[0] in rows;
      if !Blocked(rows[ids[0]], busy, pythonBusy) then Some(ids[0])
      else FirstFree(rows, ids[1..], busy, pythonBusy)
  }

  /** The row a claim hands out of a table that has just been recovered. */
  function Pick(rows: Table, bot: string, policy: Policy): (r: Option<Id>)
    ensures r.Some? ==> r.value in Waiting(rows, bot)
  {
    if |Active(rows, bot)| >= policy.maxWorkers then None
    else
      FirstFree(rows, Candidates(rows, bot, policy.queueLimit), BusyActors(rows, bot),
                |PythonActive(rows, bot)| >= policy.pythonWorkers)
  }

  function Started(row: Row, owner: string, now: int): Row {
    row.(status := Running, owner := Some(owner), startedAt := Some(now), lease := Some(now + RUN_LEASE))
  }

  function Claimed(rows: Table, bot: string, owner: string, now: int, policy: Policy): Table {
    var recovered := Recovered(rows, bot, now);
    match Pick(recovered, bot, policy)
    case None => recovered
    case Some(id) => recovered[id := Started(recovered[id], owner, now)]
  }

  // ----- completion, delivery, pruning -----

  function StatusOf(outcome: Outcome): Status {
    match outcome
    case Success => Succeeded
    case Failure => Failed
    case Interrupted => Unknown
  }

  predicate Owned(rows: Table, id: Id, owner: string) {
    id in rows && rows[id].status == Running && rows[id].owner == Some(owner)
  }

  function EndRow(row: Row, outcome: Outcome, result: Option<string>, error: Option<string>,
                  durationMs: int, now: int): Row {
    row.(status := StatusOf(outcome), result := result, error := error, durationMs := Some(durationMs),
         finishedAt := Some(now), owner := None, lease := None)
  }

  function Completed(rows: Table, id: Id, owner: string, outcome: Outcome,
                     result: Option<string>, error: Option<string>, durationMs: int, now: int): Table {
    if Owned(rows, id, owner) then
      rows[id := EndRow(rows[id], outcome, result, error, durationMs, now)]
    else rows
  }

  predicate Deliverable(row: Row, bot: string, now: int) {
    && row.bot == bot && row.source == Telegram && Terminal(row.status)
    && (row.delivery == Pending || row.delivery == Undelivered)
    && row.attempts < MAX_ATTEMPTS
    && (row.deliveryAfter == None || row.deliveryAfter.value <= now)
  }

  /** `ORDER BY created_at LIMIT 1`: any oldest deliverable row; ties are not ordered further. */
  predicate DeliveryChoice(rows: Table, bot: string, now: int, choice: Option<Id>) {
    match choice
    case None => forall id :: id in rows ==> !Deliverable(rows[id], bot, now)
    case Some(c) =>
      && c in rows && Deliverable(rows[c], bot, now)
      && forall id :: id in rows && Deliverable(rows[id], bot, now) ==> rows[c].createdAt <= rows[id].createdAt
  }

  function Dispatched(row: Row, owner: string, now: int): Row {
    row.(delivery := Sending, attempts := row.attempts + 1, owner := Some(owner), lease := Some(now + SEND_LEASE))
  }

  function DeliveryClaimed(rows: Table, bot: string, owner: string, now: int, choice: Option<Id>): Table {
    var recovered := Recovered(rows, bot, now);
    match choice
    case None => recovered
    case Some(id) => if id in recovered then recovered[id := Dispatched(recovered[id], owner, now)] else recovered
  }

  function EndDelivery(row: Row, success: bool, now: int): Row {
    row.(delivery := if success then Sent else Undelivered, owner := None, lease := None,
         deliveryAfter := Some(now + RETRY_DELAY))
  }

  function DeliveryFinished(rows: Table, id: Id, owner: string, success: bool, now: int): Table {
    if id in rows && rows[id].delivery == Sending && rows[id].owner == Some(owner) then
      rows[id := EndDelivery(rows[id], success, now)]
    else rows
  }

  predicate Prunable(row: Row, bot: string, now: int, retentionDays: nat) {
    row.bot == bot && Terminal(row.status) && row.createdAt < now - retentionDays * DAY
  }

  function Pruned(rows: Table, bot: string, now: int, retentionDays: nat): Table {
    map id | id in rows && !Prunable(rows[id], bot, now, retentionDays) :: rows[id]
  }

  // ----- what a claim hands out -----

  /** Among a prefix of a sorted list, the first free row precedes every other free row. */
  lemma {:induction false} FirstFreeIsLeast(rows: Table, ids: seq<Id>, busy: set<string>, pythonBusy: bool)
    requires forall id :: id in ids ==> id in rows
    requires forall i, j :: 0 <= i < j < |ids| ==> Before(rows, ids[i], ids[j])
    ensures var r := FirstFree(rows, ids, busy, pythonBusy);
            && (r == None <==> forall id :: id in ids ==> Blocked(rows[id], busy, pythonBusy))
            && (r.Some? ==> !Blocked(rows[r.value], busy, pythonBusy))
            && (r.Some? ==> forall id :: id in ids && id != r.value && !Blocked(rows[id], busy, pythonBusy)
                                        ==> Before(rows, r.value, id))
  {
    if ids != [] {
      assert forall id :: id in ids <==> id == ids[0] || id in ids[1..];
      if Blocked(rows[ids[0]], busy, pythonBusy) {
        FirstFreeIsLeast(rows, ids[1..], busy, pythonBusy);
      }
    }
  }

  /**
   * Work conservation: as long as no more rows wait than the queue admits, the LIMIT hides none
   * of them. Nothing is handed out exactly when all workers are in use or every waiting row is
   * held back by its actor or by the Python cap, and otherwise the oldest row not held back is.
   */
  lemma PickIsWorkConserving(rows: Table, bot: string, policy: Policy)
    requires |Waiting(rows, bot)| <= policy.queueLimit
    ensures Pick(rows, bot, policy) == None
      <==> |Active(rows, bot)| >= policy.maxWorkers
           || forall id :: id in Waiting(rows, bot) ==> Held(rows, bot, policy, id)
    ensures var r := Pick(rows, bot, policy);
            r.Some? ==> && r.value in Waiting(rows, bot) && !Held(rows, bot, policy, r.value)
                        && forall id :: id in Waiting(rows, bot) && id != r.value && !Held(rows, bot, policy, id)
                             ==> Before(rows, r.value, id)
  {
    var ids := Candidates(rows, bot, policy.queueLimit);
    FirstFreeIsLeast(rows, ids, BusyActors(rows, bot), |PythonActive(rows, bot)| >= policy.pythonWorkers);
    assert forall id :: id in ids <==> id in Waiting(rows, bot);
  }

  /** `CommandExecutionRepository`: the same transactions, updating the stored table. */
  class Repository {
    var rows: Table

    constructor ()
      ensures rows == map[]
    {
      rows := map[];
    }

    method Enqueue(id: Id, item: Row, now: int, policy: Policy) returns (answer: Admission)
      modifies this
      ensures AdmissionAnswer(old(rows), id, item, now, policy, answer)
      ensures rows == if answer == Created then old(rows)[id := item] else old(rows)
    {
      if existing :| existing in Holders(rows, item.bot, item.dedupe) {
        return Existing(existing);
      }
      assert Holders(rows, item.bot, item.dedupe) == {};
      var pending := |Admitted(rows, item.bot)|;
      if pending >= policy.queueLimit {
        return Busy;
      }
      var recent := |Recent(rows, item.bot, item.actor, now - RATE_WINDOW)|;
      if recent >= policy.rateLimit {
        return RateLimited;
      }
      if id in rows {
        return Unavailable;
      }
      rows := rows[id := item];
      return Created;
    }

    method Recover(bot: string, now: int)
      modifies this
      ensures rows == Recovered(old(rows), bot, now)
    {
      rows := map id | id in rows :: InterruptRow(rows[id], bot, now);
      rows := map id | id in rows :: ExpireRow(rows[id], bot, now);
      rows := map id | id in rows :: AbandonRow(rows[id], bot, now);
      assert rows.Keys == old(rows).Keys;
      assert forall id :: id in rows ==> rows[id] == RecoverRow(old(rows)[id], bot, now);
    }

    method Claim(bot: string, owner: string, now: int, policy: Policy) returns (item: Option<Id>)
      modifies this
      ensures item == Pick(Recovered(old(rows), bot, now), bot, policy)
      ensures rows == Claimed(old(rows), bot, owner, now, policy)
    {
      Recover(bot, now);
      item := Choose(rows, bot, policy);
      if item.Some? {
        rows := rows[item.value := Started(rows[item.value], owner, now)];
      }
    }

    static method Choose(rows: Table, bot: string, policy: Policy) returns (item: Option<Id>)
      ensures item == Pick(rows, bot, policy)
    {
      var active := Active(rows, bot);
      if |active| >= policy.maxWorkers {
        return None;
      }
      var busyUsers := set id | id in active :: rows[id].actor;
      var pythonBusy := |PythonActive(rows, bot)| >= policy.pythonWorkers;
      item := NextFree(rows, Candidates(rows, bot, policy.queueLimit), busyUsers, pythonBusy);
    }

    /** The scan over the ordered candidates. */
    static method NextFree(rows: Table, candidates: seq<Id>, busyUsers: set<string>, pythonBusy: bool)
      returns (item: Option<Id>)
      requires forall id :: id in candidates ==> id in rows
      ensures item == FirstFree(rows, candidates, busyUsers, pythonBusy)
    {
      var i := 0;
      while i < |candidates| && Blocked(rows[candidates[i]], busyUsers, pythonBusy)
        invariant 0 <= i <= |candidates|
        invariant FirstFree(rows, candidates, busyUsers, pythonBusy)
               == FirstFree(rows, candidates[i..], busyUsers, pythonBusy)
      {
        i := i + 1;
      }
      item := if i < |candidates| then Some(candidates[i]) else None;
    }

    method Complete(id: Id, owner: string, outcome: Outcome, result: Option<string>, error: Option<string>,
                    durationMs: int, now: int)
      returns (changed: bool)
      modifies this
      ensures changed == Owned(old(rows), id, owner)
      ensures rows == Completed(old(rows), id, owner, outcome, result, error, durationMs, now)
    {
      if id !in rows {
        return false;
      }
      changed := rows[id].status == Running && rows[id].owner == Some(owner);
      if changed {
        rows := rows[id := rows[id].(status := StatusOf(outcome), result := result, error := error,
                                     durationMs := Some(durationMs), finishedAt := Some(now),
                                     owner := None, lease := None)];
      }
    }

    method ClaimDelivery(bot: string, owner: string, now: int) returns (item: Option<Id>)
      modifies this
      ensures DeliveryChoice(Recovered(old(rows), bot, now), bot, now, item)
      ensures rows == DeliveryClaimed(old(rows), bot, owner, now, item)
    {
      Recover(bot, now);
      var due := set id | id in rows && Deliverable(rows[id], bot, now);
      if due == {} {
        assert forall id :: id in rows && Deliverable(rows[id], bot, now) ==> id in due;
        return None;
      }
      var oldest := Least(rows, due);
      item := Some(oldest);
      assert forall id :: id in rows && Deliverable(rows[id], bot, now) ==> id in due;
      rows := rows[oldest := Dispatched(rows[oldest], owner, now)];
    }

    method FinishDelivery(id: Id, owner: string, success: bool, now: int)
      modifies this
      ensures rows == DeliveryFinished(old(rows), id, owner, success, now)
    {
      if id in rows && rows[id].delivery == Sending && rows[id].owner == Some(owner) {
        rows := rows[id := rows[id].(delivery := if success then Sent else Undelivered, owner := None,
                                     lease := None, deliveryAfter := Some(now + RETRY_DELAY))];
      }
    }

    method Prune(bot: string, now: int, retentionDays: nat)
      modifies this
      ensures rows == Pruned(old(rows), bot, now, retentionDays)
    {
      rows := map id | id in rows && !Prunable(rows[id], bot, now, retentionDays) :: rows[id];
    }
  }
}
