/**
 * Leases and deadlines, over any run: what is handed out stays with its owner until the lease is over,
 * what is reported by then counts, and what is over is ended by the next claim of its bot.
 */
module Leases {
  import opened Wrappers
  import opened CommandQueue
  import opened QueueRuns

  /** The clock does not pass `limit`. */
  predicate Until(es: seq<Event>, limit: int) { forall k :: 0 <= k < |es| ==> es[k].now <= limit }

  /** This owner reports no outcome of this execution. */
  predicate Silent(es: seq<Event>, id: Id, owner: string) {
    forall k :: 0 <= k < |es| ==> !(es[k].Complete? && es[k].id == id && es[k].owner == owner)
  }

  /** This owner reports no end of this delivery. */
  predicate SilentDelivery(es: seq<Event>, id: Id, owner: string) {
    forall k :: 0 <= k < |es| ==> !(es[k].FinishDelivery? && es[k].id == id && es[k].owner == owner)
  }

  /** A claim of work or of a delivery for this bot; both recover first. */
  predicate ClaimOf(e: Event, bot: string) { (e.Claim? || e.ClaimDelivery?) && e.bot == bot }

  // ----- one event and one row -----

  /** What a claim does to a row: it recovers it, and it may start it if it waits. */
  lemma ClaimEffect(s: System, e: Event, policy: Policy, id: Id)
    requires e.Claim? && id in s.rows
    ensures var row, next := RecoverRow(s.rows[id], e.bot, e.now), NextRows(s.rows, e, policy);
            id in next && (next[id] == row || (row.bot == e.bot && row.status == Queued && next[id] == Started(row, e.owner, e.now)))
  {
    hide RecoverRow, Started, Candidates, FirstFree, Active, PythonActive, BusyActors;
    var mid := Recovered(s.rows, e.bot, e.now);
    assert mid[id] == RecoverRow(s.rows[id], e.bot, e.now);
  }

  /** What a delivery claim does to a row: it recovers it, and it may take it to be sent. */
  lemma DispatchEffect(s: System, e: Event, policy: Policy, id: Id)
    requires e.ClaimDelivery? && id in s.rows && Enabled(s, e, policy)
    ensures var row, next := RecoverRow(s.rows[id], e.bot, e.now), NextRows(s.rows, e, policy);
            && id in next
            && (if e.choice == Some(id) then Deliverable(row, e.bot, e.now) && next[id] == Dispatched(row, e.owner, e.now)
                else next[id] == row)
  {
    hide RecoverRow, Dispatched, Deliverable;
    var mid := Recovered(s.rows, e.bot, e.now);
    assert mid[id] == RecoverRow(s.rows[id], e.bot, e.now);
  }

  /** What the other events do to a row. */
  lemma OtherEffect(s: System, e: Event, policy: Policy, id: Id)
    requires !e.Claim? && !e.ClaimDelivery? && id in s.rows && Enabled(s, e, policy) && s.rows.Keys <= s.history.Keys
    ensures var row, next := s.rows[id], NextRows(s.rows, e, policy);
            && (id !in next ==> Terminal(row.status) && e.Prune?)
            && (id in next ==>
                  || next[id] == row
                  || (e.Complete? && e.id == id && row.status == Running && row.owner == Some(e.owner)
                      && next[id] == EndRow(row, e.outcome, e.result, e.error, e.durationMs, e.now))
                  || (e.FinishDelivery? && e.id == id && row.delivery == Sending && row.owner == Some(e.owner)
                      && next[id] == EndDelivery(row, e.success, e.now)))
  {
    hide EndRow, EndDelivery, AdmissionAnswer;
  }

  lemma StoredRowIsOk(s: System, policy: Policy, id: Id)
    requires Inv(s, policy) && id in s.rows
    ensures RowOk(s.rows[id]) && s.rows.Keys <= s.history.Keys
  {
  }

  /** One of the three. */
  lemma Effect(s: System, e: Event, policy: Policy, id: Id)
    requires Inv(s, policy) && Enabled(s, e, policy) && id in s.rows
    ensures RowOk(s.rows[id])
    ensures var row, next := s.rows[id], NextRows(s.rows, e, policy);
            && (id !in next ==> Terminal(row.status) && e.Prune?)
            && (e.Claim? && id in next ==>
                  var mid := RecoverRow(row, e.bot, e.now);
                  next[id] == mid || (mid.bot == e.bot && mid.status == Queued && next[id] == Started(mid, e.owner, e.now)))
            && (e.ClaimDelivery? && id in next ==>
                  var mid := RecoverRow(row, e.bot, e.now);
                  if e.choice == Some(id) then Deliverable(mid, e.bot, e.now) && next[id] == Dispatched(mid, e.owner, e.now)
                  else next[id] == mid)
            && (!e.Claim? && !e.ClaimDelivery? && id in next ==>
                  || next[id] == row
                  || (e.Complete? && e.id == id && row.status == Running && row.owner == Some(e.owner)
                      && next[id] == EndRow(row, e.outcome, e.result, e.error, e.durationMs, e.now))
                  || (e.FinishDelivery? && e.id == id && row.delivery == Sending && row.owner == Some(e.owner)
                      && next[id] == EndDelivery(row, e.success, e.now)))
  {
    hide *;
    StoredRowIsOk(s, policy, id);
    if e.Claim? {
      ClaimEffect(s, e, policy, id);
    } else if e.ClaimDelivery? {
      DispatchEffect(s, e, policy, id);
    } else {
      OtherEffect(s, e, policy, id);
    }
  }

  // ----- executions -----

  lemma RunningStep(s: System, e: Event, policy: Policy, id: Id)
    requires Inv(s, policy) && Enabled(s, e, policy) && id in s.rows && s.rows[id].status == Running
    ensures var row, next := s.rows[id], NextRows(s.rows, e, policy);
            && row.owner.Some? && row.lease.Some? && id in next
            && (next[id] == row || Terminal(next[id].status))
            && (e.now <= row.lease.value && !(e.Complete? && e.id == id && row.owner == Some(e.owner)) ==> next[id] == row)
            && (ClaimOf(e, row.bot) && row.lease.value < e.now ==>
                  next[id].status == Unknown && next[id].error == Some("EXECUTION_INTERRUPTED"))
  {
    hide Inv, Enabled, NextRows;
    Effect(s, e, policy, id);
  }

  lemma {:induction false} RunningIsLeftAlone(s: System, es: seq<Event>, policy: Policy, id: Id)
    requires Inv(s, policy) && Valid(s, es, policy) && policy.retentionDays >= 1
    requires id in s.rows && s.rows[id].status == Running && s.rows[id].owner.Some? && s.rows[id].lease.Some?
    requires Until(es, s.rows[id].lease.value) && Silent(es, id, s.rows[id].owner.value)
    ensures var t := After(s, es, policy);
            Inv(t, policy) && id in t.rows && t.rows[id] == s.rows[id]
    decreases |es|
  {
    hide Inv, Enabled, Next;
    if es != [] {
      InvStep(s, es[0], policy);
      RunningUnchanged(s, es[0], policy, id);
      RunningIsLeftAlone(Next(s, es[0], policy), es[1..], policy, id);
    }
  }

  lemma RunningUnchanged(s: System, e: Event, policy: Policy, id: Id)
    requires Inv(s, policy) && Enabled(s, e, policy)
    requires id in s.rows && s.rows[id].status == Running && s.rows[id].owner.Some? && s.rows[id].lease.Some?
    requires e.now <= s.rows[id].lease.value && !(e.Complete? && e.id == id && s.rows[id].owner == Some(e.owner))
    ensures id in Next(s, e, policy).rows && Next(s, e, policy).rows[id] == s.rows[id]
  {
    RunningStep(s, e, policy, id);
  }

  lemma StartIsLeased(s: System, e: Event, policy: Policy, id: Id)
    requires Inv(s, policy) && Enabled(s, e, policy) && id in s.rows && s.rows[id].status == Queued
    requires id in Next(s, e, policy).rows && Next(s, e, policy).rows[id].status == Running
    ensures e.Claim? && e.bot == s.rows[id].bot
    ensures var row := Next(s, e, policy).rows[id];
            row.owner == Some(e.owner) && row.lease == Some(e.now + 90) && SameIdentity(s.rows[id], row)
  {
    hide Inv, Enabled, NextRows;
    Effect(s, e, policy, id);
  }

  /**
   * An execution that a claim hands out stays with the claiming owner for 90 seconds, whatever else
   * happens, as long as that owner reports nothing.
   */
  lemma HandedOutForNinetySeconds(s: System, e: Event, es: seq<Event>, policy: Policy, id: Id)
    requires Inv(s, policy) && Enabled(s, e, policy) && Valid(Next(s, e, policy), es, policy) && policy.retentionDays >= 1
    requires id in s.rows && s.rows[id].status == Queued && e.Claim?
    requires id in Next(s, e, policy).rows && Next(s, e, policy).rows[id].status == Running
    requires Until(es, e.now + 90) && Silent(es, id, e.owner)
    ensures var t := After(Next(s, e, policy), es, policy);
            && Inv(t, policy) && id in t.rows && t.rows[id].status == Running && t.rows[id].owner == Some(e.owner)
            && t.rows[id].lease == Some(e.now + 90)
  {
    hide Inv, Enabled, Next;
    InvStep(s, e, policy);
    StartIsLeased(s, e, policy, id);
    RunningIsLeftAlone(Next(s, e, policy), es, policy, id);
  }

  /** What is stored of a reported outcome. */
  predicate Settles(row: Row, report: Event)
    requires report.Complete?
  {
    && (report.outcome.Success? ==> row.status == Succeeded)
    && (report.outcome.Failure? ==> row.status == Failed)
    && (report.outcome.Interrupted? ==> row.status == Unknown)
    && row.result == report.result && row.error == report.error && row.durationMs == Some(report.durationMs)
    && row.finishedAt == Some(report.now)
  }

  /** The owner of a running row reports, and what it reports is what is stored, for as long as the row is. */
  lemma ReportSettles(s: System, report: Event, later: seq<Event>, policy: Policy, id: Id)
    requires Inv(s, policy) && Enabled(s, report, policy) && policy.retentionDays >= 1
    requires id in s.rows && s.rows[id].status == Running && report.Complete? && report.id == id
    requires s.rows[id].owner == Some(report.owner) && Valid(Next(s, report, policy), later, policy)
    ensures var t := After(Next(s, report, policy), later, policy); id in t.rows ==> Settles(t.rows[id], report)
  {
    InvStep(s, report, policy);
    SettledRowsStaySettled(Next(s, report, policy), later, policy, id);
  }

  /** A report within 90 seconds counts, whatever comes in between and afterwards. */
  lemma CompletionInTimeCounts(s: System, e: Event, es: seq<Event>, report: Event, later: seq<Event>, policy: Policy, id: Id)
    requires Inv(s, policy) && Enabled(s, e, policy) && Valid(Next(s, e, policy), es, policy) && policy.retentionDays >= 1
    requires id in s.rows && s.rows[id].status == Queued && e.Claim?
    requires id in Next(s, e, policy).rows && Next(s, e, policy).rows[id].status == Running
    requires Until(es, e.now + 90) && Silent(es, id, e.owner)
    requires report.Complete? && report.id == id && report.owner == e.owner
    requires Enabled(After(Next(s, e, policy), es, policy), report, policy)
    requires Valid(Next(After(Next(s, e, policy), es, policy), report, policy), later, policy)
    ensures var t := After(Next(After(Next(s, e, policy), es, policy), report, policy), later, policy);
            id in t.rows ==> Settles(t.rows[id], report)
  {
    hide Inv, Enabled, Next, Settles;
    HandedOutForNinetySeconds(s, e, es, policy, id);
    ReportSettles(After(Next(s, e, policy), es, policy), report, later, policy, id);
  }

  /** A running row keeps owner and lease until it has ended. */
  lemma {:induction false} RunningOrEnded(s: System, es: seq<Event>, policy: Policy, id: Id)
    requires Inv(s, policy) && Valid(s, es, policy) && policy.retentionDays >= 1
    requires id in s.rows && s.rows[id].status == Running
    ensures var t := After(s, es, policy);
            && Inv(t, policy)
            && (id in t.rows ==> t.rows[id] == s.rows[id] || Terminal(t.rows[id].status))
            && (id !in t.rows ==> id in t.history)
    decreases |es|
  {
    hide Inv, Enabled, Next;
    if es == [] {
      NeverReadmitted(s, es, policy, id);
    } else {
      var t := Next(s, es[0], policy);
      InvStep(s, es[0], policy);
      EndedOrUnchanged(s, es[0], policy, id);
      if t.rows[id] == s.rows[id] {
        RunningOrEnded(t, es[1..], policy, id);
      } else {
        SettledRowsStaySettled(t, es[1..], policy, id);
        InvRun(t, es[1..], policy);
        NeverReadmitted(t, es[1..], policy, id);
      }
    }
  }

  lemma EndedOrUnchanged(s: System, e: Event, policy: Policy, id: Id)
    requires Inv(s, policy) && Enabled(s, e, policy) && id in s.rows && s.rows[id].status == Running
    ensures var t := Next(s, e, policy); id in t.rows && (t.rows[id] == s.rows[id] || Terminal(t.rows[id].status))
  {
    RunningStep(s, e, policy, id);
  }

  /** A row that was once stored is remembered as admitted. */
  lemma {:induction false} NeverReadmitted(s: System, es: seq<Event>, policy: Policy, id: Id)
    requires Inv(s, policy) && Valid(s, es, policy) && policy.retentionDays >= 1 && id in s.rows
    ensures id in After(s, es, policy).history
    decreases |es|
  {
    assert id in s.history;
    HistoryKeeps(s, es, policy, id);
  }

  lemma {:induction false} HistoryKeeps(s: System, es: seq<Event>, policy: Policy, id: Id)
    requires id in s.history && Valid(s, es, policy)
    ensures id in After(s, es, policy).history
    decreases |es|
  {
    if es != [] {
      HistoryKeeps(Next(s, es[0], policy), es[1..], policy, id);
    }
  }

  /**
   * The first claim of its bot after the lease ends a running row, so that it never runs again; and if
   * its owner had reported nothing, it ends as interrupted.
   */
  lemma ExpiredLeaseIsEnded(s: System, es: seq<Event>, e: Event, later: seq<Event>, policy: Policy, id: Id)
    requires Inv(s, policy) && Valid(s, es, policy) && policy.retentionDays >= 1
    requires id in s.rows && s.rows[id].status == Running && s.rows[id].lease.Some?
    requires Enabled(After(s, es, policy), e, policy) && ClaimOf(e, s.rows[id].bot) && s.rows[id].lease.value < e.now
    requires Valid(Next(After(s, es, policy), e, policy), later, policy)
    ensures var mid := After(s, es, policy);
            id in mid.rows && mid.rows[id] == s.rows[id] ==>
              var row := Next(mid, e, policy).rows[id];
              row.status == Unknown && row.error == Some("EXECUTION_INTERRUPTED")
    ensures var t := After(Next(After(s, es, policy), e, policy), later, policy);
            id in t.rows ==> Terminal(t.rows[id].status)
  {
    hide Inv, Enabled, Next;
    var mid := After(s, es, policy);
    RunningOrEnded(s, es, policy, id);
    InvStep(mid, e, policy);
    var t := Next(mid, e, policy);
    if id in mid.rows {
      EndedByClaim(mid, e, policy, id);
      if id in t.rows {
        StaysTerminal(t, later, policy, id);
      } else {
        StaysAway(t, later, policy, id);
      }
    } else {
      StaysAwayAfter(mid, e, later, policy, id);
    }
  }

  lemma EndedByClaim(s: System, e: Event, policy: Policy, id: Id)
    requires Inv(s, policy) && Enabled(s, e, policy) && id in s.rows && !e.Prune?
    requires || Terminal(s.rows[id].status)
             || (s.rows[id].status == Running && ClaimOf(e, s.rows[id].bot) && s.rows[id].lease.Some?
                 && s.rows[id].lease.value < e.now)
    ensures var t := Next(s, e, policy);
            && id in t.rows && id in t.history && Terminal(t.rows[id].status)
            && (s.rows[id].status == Running ==>
                  t.rows[id].status == Unknown && t.rows[id].error == Some("EXECUTION_INTERRUPTED"))
  {
    RowStep(s, e, policy, id);
    if s.rows[id].status == Running {
      RunningStep(s, e, policy, id);
    }
  }

  lemma StaysTerminal(s: System, es: seq<Event>, policy: Policy, id: Id)
    requires Inv(s, policy) && Valid(s, es, policy) && policy.retentionDays >= 1
    requires id in s.rows && Terminal(s.rows[id].status)
    ensures var t := After(s, es, policy); id in t.rows ==> Terminal(t.rows[id].status)
  {
    SettledRowsStaySettled(s, es, policy, id);
  }

  lemma StaysAway(s: System, es: seq<Event>, policy: Policy, id: Id)
    requires Inv(s, policy) && Valid(s, es, policy) && policy.retentionDays >= 1
    requires id in s.history && id !in s.rows
    ensures id !in After(s, es, policy).rows
  {
    PrunedRowsStayPruned(s, es, policy, id);
  }

  lemma StaysAwayAfter(s: System, e: Event, es: seq<Event>, policy: Policy, id: Id)
    requires Inv(s, policy) && Enabled(s, e, policy) && Valid(Next(s, e, policy), es, policy) && policy.retentionDays >= 1
    requires id in s.history && id !in s.rows
    ensures id !in After(Next(s, e, policy), es, policy).rows
  {
    assert ([e] + es)[1..] == es;
    StaysAway(s, [e] + es, policy, id);
  }

  // ----- waiting -----

  lemma WaitingStep(s: System, e: Event, policy: Policy, id: Id)
    requires Inv(s, policy) && Enabled(s, e, policy) && id in s.rows && s.rows[id].status == Queued
    ensures var row, next := s.rows[id], NextRows(s.rows, e, policy);
            && id in next
            && (e.now <= row.expiresAt ==>
                  || next[id] == row
                  || (e.Claim? && e.bot == row.bot && next[id].status == Running && next[id].owner == Some(e.owner)
                      && next[id].startedAt == Some(e.now)))
            && (ClaimOf(e, row.bot) && row.expiresAt < e.now ==>
                  next[id].status == Cancelled && next[id].error == Some("QUEUE_EXPIRED"))
  {
    hide Inv, Enabled, NextRows;
    Effect(s, e, policy, id);
  }

  /** While its deadline has not passed, a waiting row waits on unchanged unless it is started. */
  lemma {:induction false} WaitingIsLeftAlone(s: System, es: seq<Event>, policy: Policy, id: Id)
    requires Inv(s, policy) && Valid(s, es, policy) && policy.retentionDays >= 1
    requires id in s.rows && s.rows[id].status == Queued && Until(es, s.rows[id].expiresAt)
    ensures var t := After(s, es, policy);
            id in t.rows ==> t.rows[id] == s.rows[id] || t.rows[id].startedAt.Some?
    decreases |es|
  {
    hide Inv, Enabled, Next;
    if es != [] {
      var t := Next(s, es[0], policy);
      InvStep(s, es[0], policy);
      WaitsOrStarts(s, es[0], policy, id);
      if t.rows[id] == s.rows[id] {
        WaitingIsLeftAlone(t, es[1..], policy, id);
      } else {
        StaysStarted(t, es[1..], policy, id);
      }
    }
  }

  lemma WaitsOrStarts(s: System, e: Event, policy: Policy, id: Id)
    requires Inv(s, policy) && Enabled(s, e, policy) && id in s.rows && s.rows[id].status == Queued
    requires e.now <= s.rows[id].expiresAt
    ensures var t := Next(s, e, policy);
            id in t.rows && id in t.history && (t.rows[id] == s.rows[id] || t.rows[id].startedAt == Some(e.now))
  {
    WaitingStep(s, e, policy, id);
  }

  lemma StartedBefore(s: System, e: Event, policy: Policy, id: Id)
    requires Inv(s, policy) && Enabled(s, e, policy) && id in s.history && (id in s.rows ==> s.rows[id].startedAt.Some?)
    ensures var t := Next(s, e, policy); id in t.history && (id in t.rows ==> t.rows[id].startedAt.Some?)
  {
    hide Inv, Enabled, NextRows;
    if id in s.rows {
      Effect(s, e, policy, id);
    } else {
      PrunedStep(s, e, policy, id);
    }
  }

  lemma PrunedStep(s: System, e: Event, policy: Policy, id: Id)
    requires Enabled(s, e, policy) && id in s.history && id !in s.rows
    ensures id !in NextRows(s.rows, e, policy)
  {
    if id in NextRows(s.rows, e, policy) {
      RowsAppear(s, e, policy, id);
    }
  }

  lemma {:induction false} StaysStarted(s: System, es: seq<Event>, policy: Policy, id: Id)
    requires Inv(s, policy) && Valid(s, es, policy) && policy.retentionDays >= 1
    requires id in s.history && (id in s.rows ==> s.rows[id].startedAt.Some?)
    ensures var t := After(s, es, policy); id in t.rows ==> t.rows[id].startedAt.Some?
    decreases |es|
  {
    hide Inv, Enabled, Next;
    if es != [] {
      InvStep(s, es[0], policy);
      StartedBefore(s, es[0], policy, id);
      StaysStarted(Next(s, es[0], policy), es[1..], policy, id);
    }
  }

  /** The first claim of its bot after the deadline cancels a row that still waits: it is not started by it or later. */
  lemma ExpiredWaitIsEnded(s: System, e: Event, later: seq<Event>, policy: Policy, id: Id)
    requires Inv(s, policy) && Enabled(s, e, policy) && policy.retentionDays >= 1
    requires id in s.rows && s.rows[id].status == Queued && ClaimOf(e, s.rows[id].bot) && s.rows[id].expiresAt < e.now
    requires Valid(Next(s, e, policy), later, policy)
    ensures var t := After(Next(s, e, policy), later, policy);
            id in t.rows ==> t.rows[id].status == Cancelled && t.rows[id].error == Some("QUEUE_EXPIRED")
  {
    InvStep(s, e, policy);
    WaitingStep(s, e, policy, id);
    SettledRowsStaySettled(Next(s, e, policy), later, policy, id);
  }

  // ----- deliveries -----

  lemma SendingStep(s: System, e: Event, policy: Policy, id: Id)
    requires Inv(s, policy) && Enabled(s, e, policy) && id in s.rows && s.rows[id].delivery == Sending
    ensures var row, next := s.rows[id], NextRows(s.rows, e, policy);
            && row.owner.Some? && row.lease.Some? && Terminal(row.status)
            && (id in next && e.now <= row.lease.value && !(e.FinishDelivery? && e.id == id && row.owner == Some(e.owner)) ==>
                  next[id] == row)
            && (ClaimOf(e, row.bot) && row.lease.value < e.now ==>
                  && id in next
                  && ((next[id].delivery == Undelivered && next[id].owner == None && next[id].attempts == row.attempts)
                      || (e.ClaimDelivery? && e.choice == Some(id) && next[id].delivery == Sending
                          && next[id].owner == Some(e.owner) && next[id].lease == Some(e.now + 30)
                          && next[id].attempts == row.attempts + 1 <= 3)))
  {
    hide Inv, Enabled, NextRows;
    Effect(s, e, policy, id);
  }

  /** A delivery stays with its owner until its lease is over, as long as that owner reports nothing. */
  lemma {:induction false} SendingIsLeftAlone(s: System, es: seq<Event>, policy: Policy, id: Id)
    requires Inv(s, policy) && Valid(s, es, policy) && policy.retentionDays >= 1
    requires id in s.rows && s.rows[id].delivery == Sending && s.rows[id].owner.Some? && s.rows[id].lease.Some?
    requires Until(es, s.rows[id].lease.value) && SilentDelivery(es, id, s.rows[id].owner.value)
    ensures var t := After(s, es, policy);
            Inv(t, policy) && (id in t.rows ==> t.rows[id] == s.rows[id])
    decreases |es|
  {
    hide Inv, Enabled, Next;
    if es != [] {
      var t := Next(s, es[0], policy);
      InvStep(s, es[0], policy);
      SendingUnchanged(s, es[0], policy, id);
      if id in t.rows {
        SendingIsLeftAlone(t, es[1..], policy, id);
      } else {
        InvRun(t, es[1..], policy);
        StaysAway(t, es[1..], policy, id);
      }
    }
  }

  lemma SendingUnchanged(s: System, e: Event, policy: Policy, id: Id)
    requires Inv(s, policy) && Enabled(s, e, policy)
    requires id in s.rows && s.rows[id].delivery == Sending && s.rows[id].owner.Some? && s.rows[id].lease.Some?
    requires e.now <= s.rows[id].lease.value && !(e.FinishDelivery? && e.id == id && s.rows[id].owner == Some(e.owner))
    ensures var t := Next(s, e, policy); id in t.history && (id in t.rows ==> t.rows[id] == s.rows[id])
  {
    SendingStep(s, e, policy, id);
  }

  /** A delivery claimed at a time is leased for 30 seconds from then. */
  lemma DispatchIsLeased(s: System, e: Event, policy: Policy, id: Id)
    requires Inv(s, policy) && Enabled(s, e, policy) && e.ClaimDelivery? && e.choice == Some(id)
    ensures var t := Next(s, e, policy);
            && id in t.rows && t.rows[id].bot == e.bot && t.rows[id].delivery == Sending
            && t.rows[id].owner == Some(e.owner) && t.rows[id].lease == Some(e.now + 30)
            && (id in s.rows ==> t.rows[id].attempts == s.rows[id].attempts + 1)
  {
    hide Inv, NextRows;
    assert id in s.rows;
    Effect(s, e, policy, id);
    DispatchEffect(s, e, policy, id);
  }

  /**
   * A delivery whose end its owner reports in time is sent, or is to be tried again no earlier than 5
   * seconds later; after the lease the first claim of the bot takes it back.
   */
  lemma DeliveryReportCounts(s: System, es: seq<Event>, report: Event, policy: Policy, id: Id)
    requires Inv(s, policy) && Valid(s, es, policy) && policy.retentionDays >= 1
    requires id in s.rows && s.rows[id].delivery == Sending && s.rows[id].owner.Some? && s.rows[id].lease.Some?
    requires Until(es, s.rows[id].lease.value) && SilentDelivery(es, id, s.rows[id].owner.value)
    requires report.FinishDelivery? && report.id == id && s.rows[id].owner == Some(report.owner)
    requires Enabled(After(s, es, policy), report, policy)
    ensures var t := Next(After(s, es, policy), report, policy);
            id in t.rows ==>
              && t.rows[id].delivery == (if report.success then Sent else Undelivered)
              && t.rows[id].owner == None && t.rows[id].deliveryAfter == Some(report.now + 5)
  {
    hide Inv, Enabled, Next;
    SendingIsLeftAlone(s, es, policy, id);
    DeliveryEnds(After(s, es, policy), report, policy, id);
  }

  lemma DeliveryEnds(s: System, report: Event, policy: Policy, id: Id)
    requires Inv(s, policy) && Enabled(s, report, policy) && report.FinishDelivery? && report.id == id
    requires id in s.rows ==> s.rows[id].delivery == Sending && s.rows[id].owner == Some(report.owner)
    ensures var t := Next(s, report, policy);
            id in t.rows ==>
              && t.rows[id].delivery == (if report.success then Sent else Undelivered)
              && t.rows[id].owner == None && t.rows[id].deliveryAfter == Some(report.now + 5)
  {
  }

  /** What was not delivered is not dispatched before the time set for it, and never more than three times. */
  lemma RetryWaits(s: System, e: Event, policy: Policy, id: Id)
    requires Inv(s, policy) && Enabled(s, e, policy) && e.ClaimDelivery? && e.choice == Some(id)
    ensures id in s.rows && s.rows[id].source == Telegram && s.rows[id].attempts < 3
    ensures s.rows[id].deliveryAfter.Some? ==> s.rows[id].deliveryAfter.value <= e.now
  {
    hide Inv, NextRows;
    assert id in s.rows;
    Effect(s, e, policy, id);
  }
}
