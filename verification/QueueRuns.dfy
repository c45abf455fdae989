/**
 * Runs of the command queue: any interleaving of its transactions, by any owner, in any order
 * that the clock allows. A crashed owner is one that issues no further events; a late completion
 * is a `Complete` or `FinishDelivery` event after the lease was recovered.
 */
module QueueRuns {
  import opened Wrappers
  import opened CommandQueue

  datatype Event =
    | Enqueue(id: Id, item: Row, answer: Admission, now: int)
    | Claim(bot: string, owner: string, now: int)
    | Complete(id: Id, owner: string, outcome: Outcome, result: Option<string>, error: Option<string>,
               durationMs: int, now: int)
    | ClaimDelivery(bot: string, owner: string, choice: Option<Id>, now: int)
    | FinishDelivery(id: Id, owner: string, success: bool, now: int)
    | Prune(bot: string, now: int)

  /** The stored table, every row ever admitted (as admitted), and the last clock reading. */
  datatype System = System(rows: Table, history: Table, clock: int)

  predicate Enabled(s: System, e: Event, policy: Policy) {
    && e.now >= s.clock
    && match e
       case Enqueue(id, item, answer, now) =>
         && Fresh(item) && item.createdAt <= now && id !in s.history
         && AdmissionAnswer(s.rows, id, item, now, policy, answer)
       case ClaimDelivery(bot, _, choice, now) => DeliveryChoice(Recovered(s.rows, bot, now), bot, now, choice)
       case _ => true
  }

  /** The table a transaction works on once it has recovered expired leases. */
  function Middle(rows: Table, e: Event): Table {
    match e
    case Claim(bot, _, now) => Recovered(rows, bot, now)
    case ClaimDelivery(bot, _, _, now) => Recovered(rows, bot, now)
    case _ => rows
  }

  function NextRows(rows: Table, e: Event, policy: Policy): Table {
    match e
    case Enqueue(id, item, answer, _) => if answer == Created then rows[id := item] else rows
    case Claim(bot, owner, now) => Claimed(rows, bot, owner, now, policy)
    case Complete(id, owner, outcome, result, error, ms, now) =>
      Completed(rows, id, owner, outcome, result, error, ms, now)
    case ClaimDelivery(bot, owner, choice, now) => DeliveryClaimed(rows, bot, owner, now, choice)
    case FinishDelivery(id, owner, success, now) => DeliveryFinished(rows, id, owner, success, now)
    case Prune(bot, now) => Pruned(rows, bot, now, policy.retentionDays)
  }

  function Next(s: System, e: Event, policy: Policy): System {
    System(NextRows(s.rows, e, policy),
           if e.Enqueue? && e.answer == Created then s.history[e.id := e.item] else s.history,
           e.now)
  }

  function After(s: System, es: seq<Event>, policy: Policy): System
    decreases |es|
  {
    if es == [] then s else After(Next(s, es[0], policy), es[1..], policy)
  }

  predicate Valid(s: System, es: seq<Event>, policy: Policy)
    decreases |es|
  {
    es != [] ==> Enabled(s, es[0], policy) && Valid(Next(s, es[0], policy), es[1..], policy)
  }

  function Start(clock: int): System { System(map[], map[], clock) }

  // ----- one row under one event -----

  predicate RowOk(row: Row) {
    && (row.owner.Some? <==> row.status == Running || row.delivery == Sending)
    && (row.lease.Some? <==> row.owner.Some?)
    && (Live(row.status) ==> (row.delivery == Pending || row.delivery == Skipped))
    && (row.startedAt.Some? ==> row.status != Queued)
    && (row.status == Running ==> row.startedAt.Some?)
    && row.attempts <= MAX_ATTEMPTS
    && (row.delivery == Skipped <==> row.source == Test)
    && (row.attempts == 0 <==> row.delivery == Pending || row.delivery == Skipped)
  }

  predicate SameIdentity(a: Row, b: Row) {
    && a.bot == b.bot && a.dedupe == b.dedupe && a.actor == b.actor && a.kind == b.kind
    && a.source == b.source && a.createdAt == b.createdAt && a.expiresAt == b.expiresAt
  }

  /** The fields the outcome of an execution consists of. */
  predicate SameOutcome(a: Row, b: Row) {
    && a.status == b.status && a.result == b.result && a.error == b.error
    && a.durationMs == b.durationMs && a.startedAt == b.startedAt && a.finishedAt == b.finishedAt
  }

  /** How many status changes a row still has before it. */
  function StatusRank(row: Row): nat {
    if row.status == Queued then 2 else if row.status == Running then 1 else 0
  }

  /** How many delivery-state changes a row still has before it. */
  function DeliveryRank(row: Row): nat {
    var left := if row.attempts <= MAX_ATTEMPTS then MAX_ATTEMPTS - row.attempts else 0;
    match row.delivery
    case Pending | Undelivered => 2 * left
    case Sending => 2 * left + 1
    case Sent | Skipped => 0
  }

  function Changed<T(==)>(a: T, b: T): nat { if a == b then 0 else 1 }

  predicate Evolves(a: Row, b: Row) {
    && SameIdentity(a, b)
    && StatusRank(b) + Changed(a.status, b.status) <= StatusRank(a)
    && DeliveryRank(b) + Changed(a.delivery, b.delivery) <= DeliveryRank(a)
    && (Terminal(a.status) ==> SameOutcome(a, b))
    && (Live(a.status) ==> a.delivery == b.delivery && a.attempts == b.attempts)
    && (a.startedAt.Some? ==> b.startedAt == a.startedAt)
    && a.attempts <= b.attempts
  }

  lemma RecoveryEvolves(row: Row, bot: string, now: int)
    requires RowOk(row)
    ensures var r := RecoverRow(row, bot, now);
            RowOk(r) && Evolves(row, r) && r.attempts == row.attempts && r.startedAt == row.startedAt
    ensures var r := RecoverRow(row, bot, now);
            (r.status == Queued || r.status == Running ==> r == row)
  {
  }

  lemma SameEvolves(row: Row)
    ensures Evolves(row, row)
  {
  }

  lemma StartEvolves(row: Row, owner: string, now: int)
    requires RowOk(row)
    ensures row.status == Queued ==> RowOk(Started(row, owner, now)) && Evolves(row, Started(row, owner, now))
  {
  }

  lemma CompletionEvolves(row: Row, outcome: Outcome, result: Option<string>, error: Option<string>, ms: int, now: int)
    requires RowOk(row)
    ensures var r := EndRow(row, outcome, result, error, ms, now);
            row.status == Running ==> RowOk(r) && Evolves(row, r)
  {
  }

  lemma DeliveryEndEvolves(row: Row, success: bool, now: int)
    requires RowOk(row)
    ensures var r := EndDelivery(row, success, now);
            row.delivery == Sending ==> RowOk(r) && Evolves(row, r)
  {
  }

  /** A row starts running only in a claim, which stamps the clock on it. */
  predicate Claims(a: Row, b: Row, e: Event) {
    && (b.startedAt == a.startedAt || (e.Claim? && b.startedAt == Some(e.now)))
    && (b.status == Running ==> a.status == Running || (e.Claim? && a.status == Queued))
  }

  lemma ClaimRowStep(rows: Table, e: Event, policy: Policy, id: Id)
    requires id in rows && RowOk(rows[id]) && e.Claim?
    ensures var mid, next := Middle(rows, e), NextRows(rows, e, policy);
            && id in mid && id in next && RowOk(mid[id]) && RowOk(next[id])
            && Evolves(rows[id], mid[id]) && Evolves(mid[id], next[id]) && Claims(rows[id], next[id], e)
  {
    var r := RecoverRow(rows[id], e.bot, e.now);
    RecoveryEvolves(rows[id], e.bot, e.now);
    SameEvolves(r);
    StartEvolves(r, e.owner, e.now);
    assert Middle(rows, e)[id] == r;
  }

  lemma DispatchRowStep(rows: Table, e: Event, policy: Policy, id: Id)
    requires id in rows && RowOk(rows[id]) && e.ClaimDelivery?
    requires DeliveryChoice(Recovered(rows, e.bot, e.now), e.bot, e.now, e.choice)
    ensures var mid, next := Middle(rows, e), NextRows(rows, e, policy);
            && id in mid && id in next && RowOk(mid[id]) && RowOk(next[id])
            && Evolves(rows[id], mid[id]) && Evolves(mid[id], next[id]) && Claims(rows[id], next[id], e)
  {
    var r := RecoverRow(rows[id], e.bot, e.now);
    RecoveryEvolves(rows[id], e.bot, e.now);
    SameEvolves(r);
    assert Middle(rows, e)[id] == r;
  }

  /**
   * What one transaction can do to one row: nothing, a recovery, a recovery followed by a hand-out
   * of this very row, the completion by its owner, the end of a delivery by its owner, or, for a
   * terminal row only, its removal.
   */
  lemma RowStep(s: System, e: Event, policy: Policy, id: Id)
    requires id in s.rows && RowOk(s.rows[id]) && s.rows.Keys <= s.history.Keys && Enabled(s, e, policy)
    ensures id in Middle(s.rows, e)
    ensures RowOk(Middle(s.rows, e)[id]) && Evolves(s.rows[id], Middle(s.rows, e)[id])
    ensures id !in NextRows(s.rows, e, policy) ==> Terminal(s.rows[id].status) && e.Prune?
    ensures id in NextRows(s.rows, e, policy) ==>
              && RowOk(NextRows(s.rows, e, policy)[id])
              && Evolves(Middle(s.rows, e)[id], NextRows(s.rows, e, policy)[id])
              && Claims(s.rows[id], NextRows(s.rows, e, policy)[id], e)
  {
    var row := s.rows[id];
    SameEvolves(row);
    match e
    case Claim(_, _, _) => ClaimRowStep(s.rows, e, policy, id);
    case ClaimDelivery(_, _, _, _) => DispatchRowStep(s.rows, e, policy, id);
    case Complete(_, _, outcome, result, error, ms, now) => CompletionEvolves(row, outcome, result, error, ms, now);
    case FinishDelivery(_, _, success, now) => DeliveryEndEvolves(row, success, now);
    case _ =>
  }

  /** Rows appear only through a successful admission. */
  lemma RowsAppear(s: System, e: Event, policy: Policy, id: Id)
    requires id in NextRows(s.rows, e, policy) && id !in s.rows
    ensures e.Enqueue? && e.answer == Created && e.id == id && NextRows(s.rows, e, policy)[id] == e.item
  {
  }

  // ----- the invariant -----

  ghost predicate RowsOk(s: System) {
    && s.rows.Keys <= s.history.Keys
    && forall id :: id in s.rows ==> RowOk(s.rows[id]) && SameIdentity(s.rows[id], s.history[id])
  }

  /** No two stored rows of one bot carry the same dedupe key. */
  ghost predicate Deduplicated(rows: Table) {
    forall i, j :: i in rows && j in rows && rows[i].bot == rows[j].bot && rows[i].dedupe == rows[j].dedupe ==> i == j
  }

  ghost predicate OnePerActor(rows: Table, bot: string) {
    forall i, j :: i in Active(rows, bot) && j in Active(rows, bot) && rows[i].actor == rows[j].actor ==> i == j
  }

  predicate WithinCounts(rows: Table, bot: string, policy: Policy) {
    && |Active(rows, bot)| <= policy.maxWorkers
    && |PythonActive(rows, bot)| <= policy.pythonWorkers
    && |Admitted(rows, bot)| <= policy.queueLimit
  }

  ghost predicate WithinLimits(rows: Table, bot: string, policy: Policy) {
    WithinCounts(rows, bot, policy) && OnePerActor(rows, bot)
  }

  /** Times never run ahead of the clock, and no row of the last minute has been pruned. */
  ghost predicate Timely(s: System) {
    && (forall id :: id in s.history ==> s.history[id].createdAt <= s.clock)
    && (forall id :: id in s.history && s.history[id].createdAt >= s.clock - RATE_WINDOW ==> id in s.rows)
    && (forall id :: id in s.rows && s.rows[id].startedAt.Some? ==> s.rows[id].startedAt.value <= s.clock)
  }

  ghost predicate Inv(s: System, policy: Policy) {
    && RowsOk(s) && Deduplicated(s.rows) && Timely(s)
    && forall bot :: WithinLimits(s.rows, bot, policy)
  }

  lemma RowsOkStep(s: System, e: Event, policy: Policy)
    requires RowsOk(s) && Enabled(s, e, policy)
    ensures RowsOk(Next(s, e, policy))
  {
    var t := Next(s, e, policy);
    forall id | id in t.rows
      ensures id in t.history && RowOk(t.rows[id]) && SameIdentity(t.rows[id], t.history[id])
    {
      if id in s.rows {
        RowStep(s, e, policy, id);
      } else {
        RowsAppear(s, e, policy, id);
      }
    }
  }

  lemma DeduplicatedStep(s: System, e: Event, policy: Policy)
    requires RowsOk(s) && Deduplicated(s.rows) && Enabled(s, e, policy)
    ensures Deduplicated(NextRows(s.rows, e, policy))
  {
    var next := NextRows(s.rows, e, policy);
    if e.Enqueue? && e.answer == Created {
      assert forall k :: k in s.rows && s.rows[k].bot == e.item.bot && s.rows[k].dedupe == e.item.dedupe
                     ==> k in Holders(s.rows, e.item.bot, e.item.dedupe);
    }
    forall i, j | i in next && j in next && next[i].bot == next[j].bot && next[i].dedupe == next[j].dedupe
      ensures i == j
    {
      if i in s.rows { RowStep(s, e, policy, i); } else { RowsAppear(s, e, policy, i); }
      if j in s.rows { RowStep(s, e, policy, j); } else { RowsAppear(s, e, policy, j); }
    }
  }

  lemma TimelyStep(s: System, e: Event, policy: Policy)
    requires RowsOk(s) && Timely(s) && Enabled(s, e, policy) && policy.retentionDays >= 1
    ensures Timely(Next(s, e, policy))
  {
    var t := Next(s, e, policy);
    forall id | id in s.rows && id !in t.rows
      ensures s.rows[id].createdAt < t.clock - RATE_WINDOW
    {
      RowStep(s, e, policy, id);
      assert Prunable(s.rows[id], e.bot, e.now, policy.retentionDays);
    }
    forall id | id in t.rows && t.rows[id].startedAt.Some?
      ensures t.rows[id].startedAt.value <= t.clock
    {
      if id in s.rows { RowStep(s, e, policy, id); } else { RowsAppear(s, e, policy, id); }
    }
  }

  /** Recovery only ever takes rows out of the running and waiting sets. */
  lemma RecoveryShrinks(s: System, bot: string, now: int, b: string)
    requires RowsOk(s)
    ensures var r := Recovered(s.rows, bot, now);
            && Active(r, b) <= Active(s.rows, b) && PythonActive(r, b) <= PythonActive(s.rows, b)
            && Admitted(r, b) <= Admitted(s.rows, b)
            && (forall id :: id in Active(r, b) ==> r[id] == s.rows[id])
  {
    forall id | id in s.rows {
      RecoveryEvolves(s.rows[id], bot, now);
    }
  }

  lemma ShrinkingKeepsLimits(rows: Table, next: Table, b: string, policy: Policy)
    requires WithinLimits(rows, b, policy)
    requires Active(next, b) <= Active(rows, b) && PythonActive(next, b) <= PythonActive(rows, b)
    requires Admitted(next, b) <= Admitted(rows, b)
    requires forall id :: id in Active(next, b) ==> next[id].actor == rows[id].actor
    ensures WithinLimits(next, b, policy)
  {
    SubsetCardinality(Active(next, b), Active(rows, b));
    SubsetCardinality(PythonActive(next, b), PythonActive(rows, b));
    SubsetCardinality(Admitted(next, b), Admitted(rows, b));
  }

  /** How writing one row changes the counted sets. */
  lemma WriteSets(rows: Table, id: Id, row: Row, b: string)
    requires id in rows ==> rows[id].bot == row.bot && rows[id].kind == row.kind && rows[id].status != Running
    ensures var next := rows[id := row];
            && Active(next, b) == Active(rows, b) + (if row.bot == b && row.status == Running then {id} else {})
            && PythonActive(next, b) == PythonActive(rows, b)
                 + (if row.bot == b && row.status == Running && row.kind == "python" then {id} else {})
    ensures (id in rows ==> Live(rows[id].status)) && Live(row.status) ==>
              Admitted(rows[id := row], b) == Admitted(rows, b) + (if row.bot == b then {id} else {})
  {
  }

  /** A row that was waiting was admitted and did not run. */
  lemma StartSets(mid: Table, id: Id, row: Row, bot: string, b: string)
    requires id in Waiting(mid, bot) && SameIdentity(mid[id], row) && row.status == Running
    ensures var next := mid[id := row];
            && Admitted(next, b) == Admitted(mid, b)
            && Active(next, b) == Active(mid, b) + (if b == bot then {id} else {})
            && PythonActive(next, b) == PythonActive(mid, b) + (if b == bot && row.kind == "python" then {id} else {})
  {
    WriteSets(mid, id, row, b);
    if b == bot {
      assert id in Admitted(mid, b);
    }
  }

  lemma StartKeepsCounts(mid: Table, id: Id, row: Row, bot: string, policy: Policy, b: string)
    requires WithinCounts(mid, b, policy)
    requires id in Waiting(mid, bot) && |Active(mid, bot)| < policy.maxWorkers
    requires |PythonActive(mid, bot)| < policy.pythonWorkers || mid[id].kind != "python"
    requires SameIdentity(mid[id], row) && row.status == Running
    ensures WithinCounts(mid[id := row], b, policy)
  {
    hide Waiting, Active, PythonActive, Admitted;
    StartSets(mid, id, row, bot, b);
    if b == bot {
      AddedCardinality(Active(mid, b), id);
      AddedCardinality(PythonActive(mid, b), id);
    }
  }

  lemma AddedCardinality(ids: set<Id>, id: Id)
    ensures |ids + {id}| <= |ids| + 1
    ensures |ids + {}| == |ids|
  {
    assert ids + {} == ids;
  }

  /** Starting one waiting row that nothing holds back keeps every limit. */
  lemma StartKeepsLimits(mid: Table, id: Id, row: Row, bot: string, policy: Policy, b: string)
    requires WithinLimits(mid, b, policy)
    requires id in Waiting(mid, bot) && !Held(mid, bot, policy, id) && |Active(mid, bot)| < policy.maxWorkers
    requires SameIdentity(mid[id], row) && row.status == Running
    ensures WithinLimits(mid[id := row], b, policy)
  {
    StartKeepsCounts(mid, id, row, bot, policy, b);
  }

  lemma ClaimKeepsLimits(s: System, e: Event, policy: Policy, b: string)
    requires RowsOk(s) && e.Claim? && Enabled(s, e, policy) && WithinLimits(s.rows, b, policy)
    ensures WithinLimits(NextRows(s.rows, e, policy), b, policy)
  {
    var mid := Recovered(s.rows, e.bot, e.now);
    RecoveryShrinks(s, e.bot, e.now, b);
    ShrinkingKeepsLimits(s.rows, mid, b, policy);
    var pick := Pick(mid, e.bot, policy);
    if pick.Some? {
      FirstFreeIsFree(mid, e.bot, policy);
      StartKeepsLimits(mid, pick.value, Started(mid[pick.value], e.owner, e.now), e.bot, policy, b);
    }
  }

  lemma SettlingKeepsLimits(rows: Table, next: Table, b: string, policy: Policy)
    requires WithinLimits(rows, b, policy) && next.Keys <= rows.Keys
    requires forall id :: id in next ==>
               && SameIdentity(rows[id], next[id]) && StatusRank(next[id]) <= StatusRank(rows[id])
               && (next[id].status == Running ==> rows[id].status == Running)
    ensures WithinLimits(next, b, policy)
  {
    ShrinkingKeepsLimits(rows, next, b, policy);
  }

  lemma FirstFreeIsFree(rows: Table, bot: string, policy: Policy)
    ensures var r := Pick(rows, bot, policy);
            r.Some? ==> && r.value in Waiting(rows, bot) && !Held(rows, bot, policy, r.value)
                        && |Active(rows, bot)| < policy.maxWorkers
  {
    FirstFreeIsLeast(rows, Candidates(rows, bot, policy.queueLimit), BusyActors(rows, bot),
                     |PythonActive(rows, bot)| >= policy.pythonWorkers);
  }

  lemma LimitsStep(s: System, e: Event, policy: Policy, b: string)
    requires RowsOk(s) && Enabled(s, e, policy) && WithinLimits(s.rows, b, policy)
    ensures WithinLimits(NextRows(s.rows, e, policy), b, policy)
  {
    if e.Claim? {
      ClaimKeepsLimits(s, e, policy, b);
    } else if e.Enqueue? && e.answer == Created {
      AdmissionKeepsLimits(s.rows, e.id, e.item, policy, b);
    } else {
      var next := NextRows(s.rows, e, policy);
      forall id | id in next
        ensures id in s.rows
        ensures SameIdentity(s.rows[id], next[id]) && StatusRank(next[id]) <= StatusRank(s.rows[id])
        ensures next[id].status == Running ==> s.rows[id].status == Running
      {
        if id in s.rows { RowStep(s, e, policy, id); } else { RowsAppear(s, e, policy, id); }
      }
      SettlingKeepsLimits(s.rows, next, b, policy);
    }
  }

  lemma AdmissionKeepsLimits(rows: Table, id: Id, item: Row, policy: Policy, b: string)
    requires WithinLimits(rows, b, policy) && id !in rows && Fresh(item)
    requires |Admitted(rows, item.bot)| < policy.queueLimit
    ensures WithinLimits(rows[id := item], b, policy)
  {
    AdmissionKeepsCounts(rows, id, item, policy, b);
    assert forall i :: i in Active(rows[id := item], b) ==> i != id && i in Active(rows, b);
  }

  lemma AdmissionKeepsCounts(rows: Table, id: Id, item: Row, policy: Policy, b: string)
    requires WithinCounts(rows, b, policy) && id !in rows && Fresh(item)
    requires |Admitted(rows, item.bot)| < policy.queueLimit
    ensures WithinCounts(rows[id := item], b, policy)
  {
    WriteSets(rows, id, item, b);
    assert Active(rows[id := item], b) == Active(rows, b);
    assert PythonActive(rows[id := item], b) == PythonActive(rows, b);
    if item.bot != b {
      assert Admitted(rows[id := item], b) == Admitted(rows, b);
    }
  }

  lemma InvStep(s: System, e: Event, policy: Policy)
    requires Inv(s, policy) && Enabled(s, e, policy) && policy.retentionDays >= 1
    ensures Inv(Next(s, e, policy), policy)
  {
    RowsOkStep(s, e, policy);
    DeduplicatedStep(s, e, policy);
    TimelyStep(s, e, policy);
    forall b
      ensures WithinLimits(NextRows(s.rows, e, policy), b, policy)
    {
      LimitsStep(s, e, policy, b);
    }
  }

  /** In every reachable state the rows are well formed, deduplicated and within every limit. */
  lemma {:induction false} InvRun(s: System, es: seq<Event>, policy: Policy)
    requires Inv(s, policy) && Valid(s, es, policy) && policy.retentionDays >= 1
    ensures Inv(After(s, es, policy), policy)
    decreases |es|
  {
    if es != [] {
      InvStep(s, es[0], policy);
      InvRun(Next(s, es[0], policy), es[1..], policy);
    }
  }

  // ----- counting over runs -----

  predicate HandsOut(rows: Table, e: Event, policy: Policy, id: Id) {
    e.Claim? && Pick(Recovered(rows, e.bot, e.now), e.bot, policy) == Some(id)
  }

  function Handoffs(s: System, es: seq<Event>, policy: Policy, id: Id): nat
    decreases |es|
  {
    if es == [] then 0
    else (if HandsOut(s.rows, es[0], policy, id) then 1 else 0)
         + Handoffs(Next(s, es[0], policy), es[1..], policy, id)
  }

  /** Status changes of a row in one event; recovery and the rest of the transaction count apart. */
  function StatusMoves(rows: Table, e: Event, policy: Policy, id: Id): nat {
    var mid, next := Middle(rows, e), NextRows(rows, e, policy);
    (if id in rows && id in mid then Changed(rows[id].status, mid[id].status) else 0)
    + (if id in mid && id in next then Changed(mid[id].status, next[id].status) else 0)
  }

  function DeliveryMoves(rows: Table, e: Event, policy: Policy, id: Id): nat {
    var mid, next := Middle(rows, e), NextRows(rows, e, policy);
    (if id in rows && id in mid then Changed(rows[id].delivery, mid[id].delivery) else 0)
    + (if id in mid && id in next then Changed(mid[id].delivery, next[id].delivery) else 0)
  }

  function StatusChanges(s: System, es: seq<Event>, policy: Policy, id: Id): nat
    decreases |es|
  {
    if es == [] then 0
    else StatusMoves(s.rows, es[0], policy, id) + StatusChanges(Next(s, es[0], policy), es[1..], policy, id)
  }

  function DeliveryChanges(s: System, es: seq<Event>, policy: Policy, id: Id): nat
    decreases |es|
  {
    if es == [] then 0
    else DeliveryMoves(s.rows, es[0], policy, id) + DeliveryChanges(Next(s, es[0], policy), es[1..], policy, id)
  }

  predicate Dispatches(e: Event, id: Id) { e.ClaimDelivery? && e.choice == Some(id) }

  function Sends(s: System, es: seq<Event>, policy: Policy, id: Id): nat
    decreases |es|
  {
    if es == [] then 0
    else (if Dispatches(es[0], id) then 1 else 0) + Sends(Next(s, es[0], policy), es[1..], policy, id)
  }

  /** What may still happen to an id: everything before admission, nothing after pruning. */
  function StatusLeft(s: System, id: Id): nat {
    if id in s.rows then StatusRank(s.rows[id]) else if id in s.history then 0 else 2
  }

  function DeliveryLeft(s: System, id: Id): nat {
    if id in s.rows then DeliveryRank(s.rows[id]) else if id in s.history then 0 else 2 * MAX_ATTEMPTS
  }

  function SendsLeft(s: System, id: Id): nat {
    if id in s.rows then (if s.rows[id].attempts <= MAX_ATTEMPTS then MAX_ATTEMPTS - s.rows[id].attempts else 0)
    else if id in s.history then 0 else MAX_ATTEMPTS
  }

  predicate Claimable(s: System, id: Id) {
    if id in s.rows then s.rows[id].status == Queued else id !in s.history
  }

  lemma CountsStep(s: System, e: Event, policy: Policy, id: Id)
    requires Inv(s, policy) && Enabled(s, e, policy)
    ensures var t := Next(s, e, policy);
            && StatusMoves(s.rows, e, policy, id) + StatusLeft(t, id) <= StatusLeft(s, id)
            && DeliveryMoves(s.rows, e, policy, id) + DeliveryLeft(t, id) <= DeliveryLeft(s, id)
            && (if Dispatches(e, id) then 1 else 0) + SendsLeft(t, id) <= SendsLeft(s, id)
            && (Claimable(t, id) ==> Claimable(s, id) && !HandsOut(s.rows, e, policy, id))
            && (HandsOut(s.rows, e, policy, id) ==> Claimable(s, id))
  {
    if id in s.rows {
      RowStep(s, e, policy, id);
      if e.Claim? || e.ClaimDelivery? {
        RecoveryEvolves(s.rows[id], e.bot, e.now);
      }
    } else if id in NextRows(s.rows, e, policy) {
      RowsAppear(s, e, policy, id);
    }
  }

  /** At most once: along any run, a row is handed to a worker at most once. */
  lemma {:induction false} HandedOutAtMostOnce(s: System, es: seq<Event>, policy: Policy, id: Id)
    requires Inv(s, policy) && Valid(s, es, policy) && policy.retentionDays >= 1
    ensures Handoffs(s, es, policy, id) <= if Claimable(s, id) then 1 else 0
    decreases |es|
  {
    if es != [] {
      CountsStep(s, es[0], policy, id);
      InvStep(s, es[0], policy);
      HandedOutAtMostOnce(Next(s, es[0], policy), es[1..], policy, id);
    }
  }

  /**
   * Quiescence: counting every update a transaction makes, an execution changes status at most
   * twice and delivery state at most six times, and its reply is dispatched at most three times.
   */
  lemma {:induction false} EveryRowQuiesces(s: System, es: seq<Event>, policy: Policy, id: Id)
    requires Inv(s, policy) && Valid(s, es, policy) && policy.retentionDays >= 1
    ensures StatusChanges(s, es, policy, id) <= StatusLeft(s, id) <= 2
    ensures DeliveryChanges(s, es, policy, id) <= DeliveryLeft(s, id) <= 6
    ensures Sends(s, es, policy, id) <= SendsLeft(s, id) <= 3
    decreases |es|
  {
    if id in s.rows {
      assert RowOk(s.rows[id]);
    }
    if es != [] {
      CountsStep(s, es[0], policy, id);
      InvStep(s, es[0], policy);
      EveryRowQuiesces(Next(s, es[0], policy), es[1..], policy, id);
    }
  }

  /**
   * Along any run a stored row keeps its identity, never goes back to `queued` once it left it,
   * keeps status and result once terminal whoever reports later, and stays `sent` once sent.
   */
  lemma {:induction false} SettledRowsStaySettled(s: System, es: seq<Event>, policy: Policy, id: Id)
    requires Inv(s, policy) && Valid(s, es, policy) && policy.retentionDays >= 1 && id in s.rows
    ensures var t := After(s, es, policy);
            id in t.rows ==>
              && SameIdentity(s.rows[id], t.rows[id])
              && (s.rows[id].status != Queued ==> t.rows[id].status != Queued)
              && (Terminal(s.rows[id].status) ==> SameOutcome(s.rows[id], t.rows[id]))
              && (s.rows[id].delivery == Sent ==> t.rows[id].delivery == Sent)
    decreases |es|
  {
    if es != [] {
      var t := Next(s, es[0], policy);
      RowStep(s, es[0], policy, id);
      InvStep(s, es[0], policy);
      if id in t.rows {
        SettledRowsStaySettled(t, es[1..], policy, id);
      } else {
        PrunedRowsStayPruned(t, es[1..], policy, id);
      }
    }
  }

  /** Pruning never deletes a row that is still queued or running. */
  lemma LiveRowsAreKept(s: System, e: Event, policy: Policy, id: Id)
    requires Inv(s, policy) && Enabled(s, e, policy) && id in s.rows && Live(s.rows[id].status)
    ensures id in Next(s, e, policy).rows
  {
    RowStep(s, e, policy, id);
  }

  lemma {:induction false} PrunedRowsStayPruned(s: System, es: seq<Event>, policy: Policy, id: Id)
    requires Inv(s, policy) && Valid(s, es, policy) && policy.retentionDays >= 1
    requires id in s.history && id !in s.rows
    ensures id !in After(s, es, policy).rows
    decreases |es|
  {
    if es != [] {
      InvStep(s, es[0], policy);
      if id in Next(s, es[0], policy).rows {
        RowsAppear(s, es[0], policy, id);
      }
      PrunedRowsStayPruned(Next(s, es[0], policy), es[1..], policy, id);
    }
  }

  // ----- what reachable states guarantee -----

  /** Owner and lease are set exactly while a row runs or its reply is being sent, never both. */
  lemma OwnershipIsExclusive(clock: int, es: seq<Event>, policy: Policy, id: Id)
    requires Valid(Start(clock), es, policy) && policy.retentionDays >= 1
    requires id in After(Start(clock), es, policy).rows
    ensures var row := After(Start(clock), es, policy).rows[id];
            && (row.owner.Some? <==> row.status == Running || row.delivery == Sending)
            && (row.lease.Some? <==> row.status == Running || row.delivery == Sending)
            && !(row.status == Running && row.delivery == Sending)
  {
    InvRun(Start(clock), es, policy);
  }

  /** Every limit of the policy holds for every bot in every reachable state. */
  lemma LimitsHold(clock: int, es: seq<Event>, policy: Policy, bot: string)
    requires Valid(Start(clock), es, policy) && policy.retentionDays >= 1
    ensures WithinLimits(After(Start(clock), es, policy).rows, bot, policy)
  {
    InvRun(Start(clock), es, policy);
  }

  /** Rows admitted for this actor since `since`, pruned ones included. */
  function AdmittedSince(history: Table, bot: string, actor: string, since: int): set<Id> {
    set id | id in history && history[id].bot == bot && history[id].actor == actor && history[id].createdAt >= since
  }

  /**
   * Rate limit over the whole run: right after an admission, at most `rateLimit` rows of this
   * actor were created in the last 60 seconds, counting rows that have been pruned meanwhile.
   */
  lemma RateLimitSurvivesPruning(s: System, e: Event, policy: Policy)
    requires Inv(s, policy) && Enabled(s, e, policy) && e.Enqueue? && e.answer == Created
    ensures |AdmittedSince(Next(s, e, policy).history, e.item.bot, e.item.actor, e.now - RATE_WINDOW)|
         <= policy.rateLimit
  {
    var since := e.now - RATE_WINDOW;
    var before := AdmittedSince(s.history, e.item.bot, e.item.actor, since);
    var after := AdmittedSince(Next(s, e, policy).history, e.item.bot, e.item.actor, since);
    forall id | id in before
      ensures id in Recent(s.rows, e.item.bot, e.item.actor, since)
    {
      assert s.history[id].createdAt >= s.clock - RATE_WINDOW;
      assert SameIdentity(s.rows[id], s.history[id]);
    }
    SubsetCardinality(before, Recent(s.rows, e.item.bot, e.item.actor, since));
    assert after <= before + {e.id};
    SubsetCardinality(after, before + {e.id});
  }

  /**
   * In every reachable state a claim is work-conserving: it hands out nothing exactly when the
   * worker cap is reached or every unexpired queued row is held back by its actor or the Python
   * cap; what it hands out precedes, in (created_at, id) order, every other row not held back.
   */
  lemma ClaimsAreWorkConserving(clock: int, es: seq<Event>, policy: Policy, bot: string, now: int)
    requires Valid(Start(clock), es, policy) && policy.retentionDays >= 1
    ensures var rows := Recovered(After(Start(clock), es, policy).rows, bot, now);
            var r := Pick(rows, bot, policy);
            && (r == None <==> |Active(rows, bot)| >= policy.maxWorkers
                               || forall id :: id in Waiting(rows, bot) ==> Held(rows, bot, policy, id))
            && (r.Some? ==> && r.value in Waiting(rows, bot) && !Held(rows, bot, policy, r.value)
                            && forall id :: id in Waiting(rows, bot) && id != r.value && !Held(rows, bot, policy, id)
                                 ==> Before(rows, r.value, id))
  {
    InvRun(Start(clock), es, policy);
    var s := After(Start(clock), es, policy);
    NoneHidden(s, policy, bot, now);
    PickIsWorkConserving(Recovered(s.rows, bot, now), bot, policy);
  }

  lemma NoneHidden(s: System, policy: Policy, bot: string, now: int)
    requires Inv(s, policy)
    ensures |Waiting(Recovered(s.rows, bot, now), bot)| <= policy.queueLimit
  {
    var rows := Recovered(s.rows, bot, now);
    RecoveryShrinks(s, bot, now, bot);
    assert WithinLimits(s.rows, bot, policy);
    SubsetCardinality(Waiting(rows, bot), Admitted(rows, bot));
    SubsetCardinality(Admitted(rows, bot), Admitted(s.rows, bot));
  }

  // ----- start order -----

  /** Same bot, same actor, both Python or both not, and `i` first in (created_at, id) order. */
  predicate Rivals(history: Table, i: Id, j: Id) {
    && i in history && j in history && i != j
    && history[i].bot == history[j].bot && history[i].actor == history[j].actor
    && (history[i].kind == "python" <==> history[j].kind == "python")
    && Before(history, i, j)
  }

  predicate StartedInOrder(rows: Table, i: Id, j: Id) {
    i in rows && j in rows && rows[j].startedAt.Some? ==>
      && rows[i].status != Queued
      && (rows[i].startedAt.Some? ==> rows[i].startedAt.value <= rows[j].startedAt.value)
  }

  /** While the earlier rival waits, the later one is not picked. */
  lemma EarlierRivalGoesFirst(mid: Table, bot: string, policy: Policy, i: Id, j: Id)
    requires |Waiting(mid, bot)| <= policy.queueLimit && Rivals(mid, i, j)
    requires i in Waiting(mid, bot)
    ensures Pick(mid, bot, policy) != Some(j)
  {
    PickIsWorkConserving(mid, bot, policy);
  }

  lemma StartOrderStep(s: System, e: Event, policy: Policy, i: Id, j: Id)
    requires Inv(s, policy) && Enabled(s, e, policy) && Rivals(s.history, i, j) && StartedInOrder(s.rows, i, j)
    ensures StartedInOrder(NextRows(s.rows, e, policy), i, j)
  {
    var next := NextRows(s.rows, e, policy);
    if i in next && j in next && next[j].startedAt.Some? {
      if i !in s.rows { RowsAppear(s, e, policy, i); }
      if j !in s.rows { RowsAppear(s, e, policy, j); }
      RowStep(s, e, policy, i);
      RowStep(s, e, policy, j);
      if e.Claim? && s.rows[j].startedAt == None && next[i].status == Queued {
        EarlierRivalStillWaits(s, e, policy, i, j);
        assert false;
      }
    }
  }

  lemma EarlierRivalStillWaits(s: System, e: Event, policy: Policy, i: Id, j: Id)
    requires Inv(s, policy) && e.Claim? && Rivals(s.history, i, j) && i in s.rows && j in s.rows
    requires Claimed(s.rows, e.bot, e.owner, e.now, policy)[i].status == Queued && s.rows[j].startedAt == None
    ensures Claimed(s.rows, e.bot, e.owner, e.now, policy)[j].startedAt == None
  {
    hide RowsOk, Pick, WithinLimits;
    var mid := Recovered(s.rows, e.bot, e.now);
    NoneHidden(s, policy, e.bot, e.now);
    RivalsAfterRecovery(s, e.bot, e.now, i, j);
    if i in Waiting(mid, e.bot) {
      EarlierRivalGoesFirst(mid, e.bot, policy, i, j);
    }
  }

  lemma RivalsAfterRecovery(s: System, bot: string, now: int, i: Id, j: Id)
    requires RowsOk(s) && Rivals(s.history, i, j) && i in s.rows && j in s.rows
    ensures Rivals(Recovered(s.rows, bot, now), i, j)
    ensures s.rows[j].startedAt == None ==> Recovered(s.rows, bot, now)[j].startedAt == None
  {
    assert SameIdentity(s.rows[i], s.history[i]) && SameIdentity(s.rows[j], s.history[j]);
    RecoveryEvolves(s.rows[i], bot, now);
    RecoveryEvolves(s.rows[j], bot, now);
  }

  /**
   * First come, first started: if two queued rows of one actor and one class wait together, then
   * whenever the later one has been started the earlier one no longer waits, and if it was started
   * at all it was not started after the later one.
   */
  lemma {:induction false} RivalsStartInOrder(s: System, es: seq<Event>, policy: Policy, i: Id, j: Id)
    requires Inv(s, policy) && Valid(s, es, policy) && policy.retentionDays >= 1
    requires Rivals(s.history, i, j) && StartedInOrder(s.rows, i, j)
    ensures StartedInOrder(After(s, es, policy).rows, i, j)
    decreases |es|
  {
    if es != [] {
      StartOrderStep(s, es[0], policy, i, j);
      InvStep(s, es[0], policy);
      RivalsStartInOrder(Next(s, es[0], policy), es[1..], policy, i, j);
    }
  }
}
