/** The progress tracker and the retry loop that drives it. */
module Tracker {
  import opened Wrappers
  import opened Workflow
  import opened Interpreter
  import opened Progress
  import opened Accounting
  import opened Blame
  import opened Executor
  import Checker

  datatype RunStatus = InProgress | Succeeded | Unsuccessful | Canceled

  datatype RunProgress = RunProgress(id: string, status: RunStatus, attempt: nat, entries: seq<Entry>)

  class ProgressTracker {
    /** The latest run of each task. */
    var runs: map<string, RunProgress>

    constructor ()
      ensures runs == map[]
    {
      runs := map[];
    }

    predicate Tracks(taskId: string, runId: string)
      reads this
    {
      taskId in runs && runs[taskId].id == runId
    }

    method InitializeRun(taskId: string, runId: string, steps: seq<Step>)
      modifies this
      ensures runs == old(runs)[taskId := RunProgress(runId, InProgress, 0, Listing(steps))]
    {
      runs := runs[taskId := RunProgress(runId, InProgress, 0, Listing(steps))];
    }

    /** Forget what an earlier attempt reported; a run that is no longer tracked is left alone. */
    method BeginAttempt(taskId: string, runId: string, attempt: nat)
      modifies this
      ensures runs == if !old(Tracks(taskId, runId)) then old(runs)
                      else old(runs)[taskId := RunProgress(runId, InProgress, attempt, ResetAll(old(runs)[taskId].entries))]
    {
      if !Tracks(taskId, runId) {
        return;
      }
      var entries, i := runs[taskId].entries, 0;
      while i < |entries|
        invariant 0 <= i <= |entries| == |runs[taskId].entries|
        invariant forall k :: 0 <= k < |entries| ==>
          entries[k] == if k < i then ResetEntry(runs[taskId].entries[k]) else runs[taskId].entries[k]
      {
        entries := entries[i := ResetEntry(entries[i])];
        i := i + 1;
      }
      assert entries == ResetAll(runs[taskId].entries);
      runs := runs[taskId := RunProgress(runId, InProgress, attempt, entries)];
    }

    static method FindEntry(entries: seq<Entry>, node: Node) returns (k: nat)
      ensures k == Target(entries, node)
    {
      k := 0;
      while k < |entries| && !Matches(entries[k], node)
        invariant 0 <= k <= |entries|
        invariant k + First(entries[k..], node, false) == First(entries, node, false)
      {
        assert entries[k..][1..] == entries[k + 1..];
        k := k + 1;
      }
      if k == |entries| {
        k := 0;
        while k < |entries| && !MatchesIndex(entries[k], node)
          invariant 0 <= k <= |entries|
          invariant k + First(entries[k..], node, true) == First(entries, node, true)
        {
          assert entries[k..][1..] == entries[k + 1..];
          k := k + 1;
        }
      }
    }

    method UpdateStep(taskId: string, runId: string, report: Report)
      modifies this
      ensures runs == if !old(Tracks(taskId, runId)) then old(runs)
                      else old(runs)[taskId := old(runs)[taskId].(entries := Update(old(runs)[taskId].entries, report))]
    {
      if !Tracks(taskId, runId) {
        return;
      }
      var progress := runs[taskId];
      var k := FindEntry(progress.entries, report.node);
      if k == |progress.entries| {
        assert runs == runs[taskId := progress];
        return;
      }
      var entry := progress.entries[k].(stage := At(report.status));
      runs := runs[taskId := progress.(entries := progress.entries[k := entry])];
    }

    method FinalizeRun(taskId: string, runId: string, status: RunStatus)
      modifies this
      ensures runs == if !old(Tracks(taskId, runId)) then old(runs)
                      else old(runs)[taskId := old(runs)[taskId].(status := status,
                             entries := FinalAll(old(runs)[taskId].entries, status.Succeeded?))]
    {
      if !Tracks(taskId, runId) {
        return;
      }
      var entries, i := runs[taskId].entries, 0;
      while i < |entries|
        invariant 0 <= i <= |entries| == |runs[taskId].entries|
        invariant forall k :: 0 <= k < |entries| ==>
          entries[k] == if k < i then FinalEntry(runs[taskId].entries[k], status.Succeeded?) else runs[taskId].entries[k]
      {
        var entry := entries[i];
        if status.Succeeded? {
          if entry.stage == At(Running) {
            entry := entry.(stage := At(Success));
          } else if entry.stage == Pending {
            entry := entry.(stage := At(if entry.stepPath.Some? then Skipped else Success));
          }
        } else if entry.stage == At(Running) {
          entry := entry.(stage := At(Failed));
        } else if entry.stage == Pending {
          entry := entry.(stage := At(Skipped));
        }
        entries := entries[i := entry];
        i := i + 1;
      }
      assert entries == FinalAll(runs[taskId].entries, status.Succeeded?);
      runs := runs[taskId := runs[taskId].(status := status, entries := entries)];
    }

    /** Deliver the reports of an attempt in the order in which they were sent. */
    method Receive(taskId: string, runId: string, reports: seq<Report>)
      requires Tracks(taskId, runId)
      modifies this
      ensures runs == old(runs)[taskId := old(runs)[taskId].(entries := Deliver(old(runs)[taskId].entries, reports))]
    {
      var i := 0;
      while i < |reports|
        invariant 0 <= i <= |reports|
        invariant Tracks(taskId, runId)
        invariant runs == old(runs)[taskId := old(runs)[taskId].(entries := runs[taskId].entries)]
        invariant Deliver(runs[taskId].entries, reports[i..]) == Deliver(old(runs)[taskId].entries, reports)
      {
        assert reports[i..][1..] == reports[i + 1..];
        UpdateStep(taskId, runId, reports[i]);
        i := i + 1;
      }
    }
  }

  // ----- retries -----

  /** An attempt: the counter of external calls at its start, and the context in which it ended. */
  datatype Attempt = Attempt(start: nat, reached: State)

  /** How a run of several attempts ended, and the last attempt that was started. */
  datatype Retried =
    | RunSucceeded(attempt: nat, last: Attempt)
    | RunFailed(attempts: nat, last: Attempt)
    | RunCanceled(attempt: nat, ended: Option<Attempt>)

  function Retry(w: World, steps: seq<Step>, attempt: nat, max: nat, tick: nat, last: Option<Attempt>): Retried
    requires attempt <= max
    decreases max - attempt
  {
    if w.cancelled(tick) then RunCanceled(attempt, last)
    else
      match Run(w, steps, tick + 1)
      case (Done, st) => RunSucceeded(attempt, Attempt(tick + 1, st))
      case (Stopped(e), st) =>
        var ended := Attempt(tick + 1, st);
        if e.Cancelled? then RunCanceled(attempt, Some(ended))
        else if attempt == max then RunFailed(max, ended)
        else Retry(w, steps, attempt + 1, max, st.tick, Some(ended))
  }

  function LastAttempt(r: Retried): Option<Attempt> {
    match r
    case RunSucceeded(_, last) => Some(last)
    case RunFailed(_, last) => Some(last)
    case RunCanceled(_, ended) => ended
  }

  /** This attempt was made and did not succeed; if `cancelled`, it may have been cancelled. */
  predicate Ended(w: World, steps: seq<Step>, a: Attempt, cancelled: bool) {
    var (o, st) := Run(w, steps, a.start);
    o.Stopped? && st == a.reached && (o.e.Cancelled? ==> cancelled)
  }

  /** The attempts of a run end with the first one that does not fail, or with the last permitted one. */
  lemma {:induction false} RetriesStopInTime(w: World, steps: seq<Step>, attempt: nat, max: nat, tick: nat,
                                             last: Option<Attempt>)
    requires attempt <= max && (last.Some? ==> Ended(w, steps, last.value, false))
    ensures var r := Retry(w, steps, attempt, max, tick, last);
            match r
            case RunSucceeded(n, a) => attempt <= n <= max && Run(w, steps, a.start) == (Done, a.reached)
            case RunFailed(n, a) => n == max && Ended(w, steps, a, false)
            case RunCanceled(n, a) => attempt <= n <= max && (a.Some? ==> Ended(w, steps, a.value, true))
    decreases max - attempt
  {
    hide Run;
    if !w.cancelled(tick) {
      var (o, st) := Run(w, steps, tick + 1);
      if o.Stopped? && !o.e.Cancelled? && attempt < max {
        RetriesStopInTime(w, steps, attempt + 1, max, st.tick, Some(Attempt(tick + 1, st)));
      }
    }
  }

  // ----- the attempts of a run -----

  /** Where the next attempt is decided on: after the last one, or where the run began. */
  function NextTick(attempts: seq<Attempt>, tick: nat): nat {
    if attempts == [] then tick else attempts[|attempts| - 1].reached.tick
  }

  /** Made right after the check that follows its predecessor, which did not find the run cancelled. */
  predicate InTurn(w: World, steps: seq<Step>, tick: nat, attempts: seq<Attempt>, k: nat)
    requires k < |attempts|
  {
    && attempts[k].start == NextTick(attempts[..k], tick) + 1 && !w.cancelled(attempts[k].start - 1)
    && Run(w, steps, attempts[k].start).1 == attempts[k].reached
  }

  /** Attempts in the order in which they were made; each but the last failed. */
  ghost predicate Consecutive(w: World, steps: seq<Step>, tick: nat, attempts: seq<Attempt>) {
    && (forall k :: 0 <= k < |attempts| ==> InTurn(w, steps, tick, attempts, k))
    && (forall k :: 0 <= k < |attempts| - 1 ==> Ended(w, steps, attempts[k], false))
  }

  /** The result of a run is that of its last attempt, made in its turn. */
  ghost predicate Explains(w: World, steps: seq<Step>, max: nat, tick: nat, attempts: seq<Attempt>, r: Retried) {
    && Consecutive(w, steps, tick, attempts)
    && match r
       case RunSucceeded(n, a) =>
         |attempts| == n <= max && n >= 1 && attempts[n - 1] == a && Run(w, steps, a.start).0 == Done
       case RunFailed(n, a) =>
         |attempts| == n == max && n >= 1 && attempts[n - 1] == a && Ended(w, steps, a, false)
       case RunCanceled(n, None) => n == 1 <= max && attempts == [] && w.cancelled(tick)
       case RunCanceled(n, Some(a)) =>
         && attempts != [] && attempts[|attempts| - 1] == a && n <= max
         && ((|attempts| == n && Run(w, steps, a.start).0 == Stopped(Cancelled))
             || (|attempts| == n - 1 && Ended(w, steps, a, false) && w.cancelled(a.reached.tick)))
  }

  /** Some list of attempts explains the result. */
  ghost predicate Explained(w: World, steps: seq<Step>, max: nat, tick: nat, r: Retried) {
    exists attempts :: Explains(w, steps, max, tick, attempts, r)
  }

  lemma InTurnExtends(w: World, steps: seq<Step>, tick: nat, attempts: seq<Attempt>, a: Attempt, k: nat)
    requires k < |attempts|
    ensures InTurn(w, steps, tick, attempts + [a], k) <==> InTurn(w, steps, tick, attempts, k)
  {
    hide Run;
    assert (attempts + [a])[..k] == attempts[..k];
  }

  lemma ConsecutiveExtends(w: World, steps: seq<Step>, tick: nat, attempts: seq<Attempt>, a: Attempt)
    requires Consecutive(w, steps, tick, attempts)
    requires attempts != [] ==> Ended(w, steps, attempts[|attempts| - 1], false)
    requires a.start == NextTick(attempts, tick) + 1 && !w.cancelled(a.start - 1) && Run(w, steps, a.start).1 == a.reached
    ensures Consecutive(w, steps, tick, attempts + [a])
  {
    LastInTurn(w, steps, tick, attempts, a);
    hide Run, Ended, InTurn, NextTick;
    forall k | 0 <= k < |attempts|
      ensures InTurn(w, steps, tick, attempts + [a], k)
    {
      InTurnExtends(w, steps, tick, attempts, a, k);
    }
  }

  lemma LastInTurn(w: World, steps: seq<Step>, tick: nat, attempts: seq<Attempt>, a: Attempt)
    requires a.start == NextTick(attempts, tick) + 1 && !w.cancelled(a.start - 1) && Run(w, steps, a.start).1 == a.reached
    ensures InTurn(w, steps, tick, attempts + [a], |attempts|)
  {
    hide Run;
    assert (attempts + [a])[..|attempts|] == attempts;
  }

  lemma FailedAttempt(w: World, steps: seq<Step>, start: nat)
    ensures var (o, st) := Run(w, steps, start);
            Ended(w, steps, Attempt(start, st), false) <==> o.Stopped? && !o.e.Cancelled?
  {
    hide Run;
  }

  /** The check before the next attempt finds the run cancelled. */
  lemma CancelledBefore(w: World, steps: seq<Step>, max: nat, tick: nat, made: seq<Attempt>)
    requires |made| < max && Consecutive(w, steps, tick, made) && w.cancelled(NextTick(made, tick))
    requires made != [] ==> Ended(w, steps, made[|made| - 1], false)
    ensures var last := if made == [] then None else Some(made[|made| - 1]);
            Explains(w, steps, max, tick, made, RunCanceled(|made| + 1, last))
  {
    hide Run, Consecutive, Ended;
  }

  /** The next attempt is the last one. */
  lemma EndsWith(w: World, steps: seq<Step>, max: nat, tick: nat, made: seq<Attempt>, a: Attempt, o: Outcome)
    requires |made| < max && Consecutive(w, steps, tick, made + [a]) && Run(w, steps, a.start).0 == o
    requires o.Stopped? && !o.e.Cancelled? ==> |made| + 1 == max && Ended(w, steps, a, false)
    ensures var n := |made| + 1;
            Explains(w, steps, max, tick, made + [a],
                     if o.Done? then RunSucceeded(n, a) else if o.e.Cancelled? then RunCanceled(n, Some(a)) else RunFailed(max, a))
  {
    hide Run, Consecutive, Ended;
  }

  /** After the attempts made so far, all of them failed, the rest of the run makes the remaining ones. */
  lemma {:induction false} RetryIsExplained(w: World, steps: seq<Step>, max: nat, tick: nat, made: seq<Attempt>)
    returns (attempts: seq<Attempt>)
    requires |made| < max && Consecutive(w, steps, tick, made)
    requires made != [] ==> Ended(w, steps, made[|made| - 1], false)
    ensures var last := if made == [] then None else Some(made[|made| - 1]);
            Explains(w, steps, max, tick, attempts, Retry(w, steps, |made| + 1, max, NextTick(made, tick), last))
    decreases max - |made|
  {
    hide Run, Consecutive, Ended, Explains;
    var now := NextTick(made, tick);
    if w.cancelled(now) {
      attempts := made;
      CancelledBefore(w, steps, max, tick, made);
    } else {
      var (o, st) := Run(w, steps, now + 1);
      var a := Attempt(now + 1, st);
      ConsecutiveExtends(w, steps, tick, made, a);
      FailedAttempt(w, steps, now + 1);
      if o.Stopped? && !o.e.Cancelled? && |made| + 1 < max {
        assert (made + [a])[|made|] == a;
        attempts := RetryIsExplained(w, steps, max, tick, made + [a]);
      } else {
        attempts := made + [a];
        EndsWith(w, steps, max, tick, made, a, o);
      }
    }
  }

  lemma RunIsExplained(w: World, steps: seq<Step>, max: nat, tick: nat)
    requires max >= 1
    ensures Explained(w, steps, max, tick, Retry(w, steps, 1, max, tick, None))
  {
    hide Run, Retry, Explains;
    var attempts := RetryIsExplained(w, steps, max, tick, []);
  }

  /** Whatever explains a result, the attempts up to any point are the same: nothing is left to choice. */
  lemma {:induction false} AttemptsAreDetermined(w: World, steps: seq<Step>, tick: nat, a: seq<Attempt>, b: seq<Attempt>, k: nat)
    requires Consecutive(w, steps, tick, a) && Consecutive(w, steps, tick, b) && k < |a| && k < |b|
    ensures a[..k + 1] == b[..k + 1]
    decreases k
  {
    hide Run, Ended;
    if k > 0 {
      AttemptsAreDetermined(w, steps, tick, a, b, k - 1);
    }
    assert InTurn(w, steps, tick, a, k) && InTurn(w, steps, tick, b, k);
    assert a[..k] == b[..k] && a[k].start == b[k].start;
    assert a[..k + 1] == a[..k] + [a[k]] && b[..k + 1] == b[..k] + [b[k]];
  }

  /** A further attempt follows a failed one, and a check that did not find the run cancelled. */
  lemma AttemptFollows(w: World, steps: seq<Step>, tick: nat, attempts: seq<Attempt>, k: nat)
    requires Consecutive(w, steps, tick, attempts) && k < |attempts|
    ensures k == 0 ==> !w.cancelled(tick)
    ensures k > 0 ==> Ended(w, steps, attempts[k - 1], false) && !w.cancelled(attempts[k - 1].reached.tick)
  {
    hide Run, Ended;
    assert InTurn(w, steps, tick, attempts, k);
  }

  /** What ends a run leaves no room for a further attempt. */
  lemma NothingFollows(w: World, steps: seq<Step>, max: nat, tick: nat, attempts: seq<Attempt>, r: Retried)
    requires Explains(w, steps, max, tick, attempts, r)
    ensures |attempts| <= max
    ensures attempts == [] ==> w.cancelled(tick)
    ensures attempts != [] ==>
              var a := attempts[|attempts| - 1];
              !Ended(w, steps, a, false) || w.cancelled(a.reached.tick) || |attempts| == max
  {
    hide Run, Consecutive;
  }

  lemma NoneFollows(w: World, steps: seq<Step>, max: nat, tick: nat, a: seq<Attempt>, r: Retried, b: seq<Attempt>, q: Retried)
    requires Explains(w, steps, max, tick, a, r) && Explains(w, steps, max, tick, b, q)
    ensures |b| <= |a|
  {
    hide Run, Ended;
    NothingFollows(w, steps, max, tick, b, q);
    if |a| < |b| {
      AttemptFollows(w, steps, tick, b, |a|);
      if a != [] {
        AttemptsAreDetermined(w, steps, tick, a, b, |a| - 1);
        assert a[|a| - 1] == a[..|a|][|a| - 1] && b[|a| - 1] == b[..|a|][|a| - 1];
      }
      NothingFollows(w, steps, max, tick, a, r);
    }
  }

  /** The result of a run is the only one that can be explained. */
  lemma ResultIsDetermined(w: World, steps: seq<Step>, max: nat, tick: nat, a: seq<Attempt>, r: Retried,
                           b: seq<Attempt>, q: Retried)
    requires Explains(w, steps, max, tick, a, r) && Explains(w, steps, max, tick, b, q)
    ensures a == b && r == q
  {
    hide Run, Consecutive, Ended;
    NoneFollows(w, steps, max, tick, a, r, b, q);
    NoneFollows(w, steps, max, tick, b, q, a, r);
    if a != [] {
      AttemptsAreDetermined(w, steps, tick, a, b, |a| - 1);
      assert a == a[..|a|] && b == b[..|b|];
    }
    SameAttemptsSameResult(w, steps, max, tick, a, r, q);
  }

  lemma SameAttemptsSameResult(w: World, steps: seq<Step>, max: nat, tick: nat, a: seq<Attempt>, r: Retried, q: Retried)
    requires Explains(w, steps, max, tick, a, r) && Explains(w, steps, max, tick, a, q)
    ensures r == q
  {
    hide Run, Consecutive;
  }

  /** The entries that the last started attempt leaves behind. */
  function Shown(steps: seq<Step>, last: Option<Attempt>): seq<Entry> {
    match last
    case None => Listing(steps)
    case Some(a) => Deliver(Listing(steps), a.reached.reports)
  }

  lemma {:induction false} DeliveryKeepsIdentity(entries: seq<Entry>, reports: seq<Report>)
    ensures ResetAll(Deliver(entries, reports)) == ResetAll(entries)
    decreases |reports|
  {
    if reports != [] {
      DeliveryKeepsIdentity(Update(entries, reports[0]), reports[1..]);
    }
  }

  lemma {:induction false} ListingIsPending(steps: seq<Step>)
    ensures ResetAll(Listing(steps)) == Listing(steps)
  {
    EntriesDescribeNodes(steps, [], 0, true);
  }

  /** Run the workflow until an attempt succeeds, keeping the tracker up to date. */
  method RunWithRetries(tracker: ProgressTracker, taskId: string, runId: string, w: World, steps: seq<Step>,
                        maxAttempts: nat, tick: nat)
    returns (result: Retried)
    requires maxAttempts >= 1 && tracker.Tracks(taskId, runId)
    requires tracker.runs[taskId].entries == Listing(steps)
    modifies tracker
    ensures result == Retry(w, steps, 1, maxAttempts, tick, None)
    ensures Explained(w, steps, maxAttempts, tick, result)
    ensures tracker.Tracks(taskId, runId) && tracker.runs[taskId].entries == Shown(steps, LastAttempt(result))
    ensures forall id :: id in old(tracker.runs) && id != taskId ==>
                           id in tracker.runs && tracker.runs[id] == old(tracker.runs)[id]
  {
    hide Run, RunSteps, Deliver, Entries, Explained;
    RunIsExplained(w, steps, maxAttempts, tick);
    var attempt, now := 1, tick;
    var last: Option<Attempt> := None;
    ListingIsPending(steps);
    while true
      invariant 1 <= attempt <= maxAttempts
      invariant tracker.Tracks(taskId, runId)
      invariant tracker.runs[taskId].entries == Shown(steps, last)
      invariant Retry(w, steps, attempt, maxAttempts, now, last) == Retry(w, steps, 1, maxAttempts, tick, None)
      invariant forall id :: id in old(tracker.runs) && id != taskId ==>
                               id in tracker.runs && tracker.runs[id] == old(tracker.runs)[id]
      decreases maxAttempts - attempt
    {
      if w.cancelled(now) {
        return RunCanceled(attempt, last);
      }
      if last.Some? {
        DeliveryKeepsIdentity(Listing(steps), last.value.reached.reports);
      }
      tracker.BeginAttempt(taskId, runId, attempt);
      assert tracker.runs[taskId].entries == Listing(steps);
      var context := new ExecutionContext(w, now + 1);
      var outcome := context.Execute(steps);
      tracker.Receive(taskId, runId, context.reports);
      var ended := Attempt(now + 1, context.Snapshot());
      assert Run(w, steps, now + 1) == (outcome, ended.reached);
      match outcome {
        case Done => return RunSucceeded(attempt, ended);
        case Stopped(Cancelled) => return RunCanceled(attempt, Some(ended));
        case Stopped(_) =>
          if attempt == maxAttempts {
            return RunFailed(maxAttempts, ended);
          }
      }
      now, last := context.tick, Some(ended);
      attempt := attempt + 1;
    }
  }

  function StatusOf(r: Retried): RunStatus {
    match r
    case RunSucceeded(_, _) => Succeeded
    case RunFailed(_, _) => Unsuccessful
    case RunCanceled(_, _) => Canceled
  }

  /** A settled list shows, for every node of the workflow, how that node ended. */
  ghost predicate Settled(entries: seq<Entry>, nodes: seq<Node>) {
    Identifies(entries, nodes) && forall k :: 0 <= k < |nodes| ==> entries[k].stage.At? && !entries[k].stage.status.Running?
  }

  /** The list says exactly what the successful attempt did. */
  ghost predicate TellsTheTruth(entries: seq<Entry>, nodes: seq<Node>, reports: seq<Report>) {
    |entries| == |nodes| &&
    forall k :: 0 <= k < |nodes| ==>
      && ExactlyOnce(reports, nodes[k])
      && entries[k].stage == At(if Count(reports, Skipped, nodes[k]) == 1 then Skipped else Success)
  }

  /** Finalisation settles whatever is shown of the entries of a listing. */
  lemma FinalisationKeepsIdentity(shown: seq<Entry>, nodes: seq<Node>, success: bool)
    requires |shown| == |nodes| && forall k :: 0 <= k < |nodes| ==> ResetEntry(shown[k]) == EntryOf(nodes[k])
    ensures Settled(FinalAll(shown, success), nodes)
  {
    forall k | 0 <= k < |nodes|
      ensures ResetEntry(FinalAll(shown, success)[k]) == EntryOf(nodes[k])
    {
      assert ResetEntry(FinalEntry(shown[k], success)) == ResetEntry(shown[k]);
    }
  }

  lemma ShownIsListed(steps: seq<Step>, last: Option<Attempt>, k: nat)
    requires k < |AllNodes(steps)|
    ensures |Shown(steps, last)| == |AllNodes(steps)|
    ensures ResetEntry(Shown(steps, last)[k]) == EntryOf(AllNodes(steps)[k])
  {
    EntriesDescribeNodes(steps, [], 0, true);
    var shown, listing := Shown(steps, last), Listing(steps);
    if last.Some? {
      DeliveryKeepsIdentity(listing, last.value.reached.reports);
    }
    assert ResetAll(shown)[k] == ResetAll(listing)[k];
  }

  lemma FinalListIsSettled(steps: seq<Step>, last: Option<Attempt>, success: bool)
    ensures Settled(FinalAll(Shown(steps, last), success), AllNodes(steps))
    ensures last == None && !success ==> NoneFailed(FinalAll(Shown(steps, last), success))
  {
    hide AllNodes, Shown, Deliver, Nodes, Entries, Settled;
    var nodes, shown := AllNodes(steps), Shown(steps, last);
    ShownHasAllNodes(steps, last);
    forall k | 0 <= k < |nodes|
      ensures ResetEntry(shown[k]) == EntryOf(nodes[k])
    {
      ShownIsListed(steps, last, k);
    }
    FinalisationKeepsIdentity(shown, nodes, success);
    if last == None {
      NothingShownFailed(steps);
    }
  }

  lemma ShownHasAllNodes(steps: seq<Step>, last: Option<Attempt>)
    ensures |Shown(steps, last)| == |AllNodes(steps)|
  {
    EntriesDescribeNodes(steps, [], 0, true);
  }

  lemma NothingShownFailed(steps: seq<Step>)
    ensures NoneFailed(FinalAll(Shown(steps, None), false))
  {
    EntriesDescribeNodes(steps, [], 0, true);
  }

  lemma SuccessIsShown(g: Grammar, w: World, steps: seq<Step>, a: Attempt)
    requires Checker.Accepts(g, steps) && Run(w, steps, a.start) == (Done, a.reached)
    ensures TellsTheTruth(FinalAll(Shown(steps, Some(a)), true), AllNodes(steps), a.reached.reports)
  {
    var nodes, reports := AllNodes(steps), a.reached.reports;
    EntriesDescribeNodes(steps, [], 0, true);
    forall k | 0 <= k < |nodes|
      ensures ExactlyOnce(reports, nodes[k])
      ensures Shown(steps, Some(a))[k].stage == At(if Count(reports, Skipped, nodes[k]) == 1 then Skipped else Success)
    {
      EveryStepIsAccounted(g, w, steps, a.start, k);
    }
  }

  /** Finalisation adds no failure to a list in which nothing is left running. */
  lemma FinalisationBlamesNoOther(entries: seq<Entry>)
    requires forall k :: 0 <= k < |entries| ==> entries[k].stage != At(Running)
    ensures var final := FinalAll(entries, false);
            forall k :: 0 <= k < |entries| ==> (final[k].stage == At(Failed) <==> entries[k].stage == At(Failed))
  {
  }

  lemma FailureIsShown(g: Grammar, w: World, steps: seq<Step>, a: Attempt)
    requires Checker.Accepts(g, steps) && Ended(w, steps, a, true)
    ensures BlamedExactly(w, steps, a.start, FinalAll(Shown(steps, Some(a)), false))
  {
    var nodes, shown := AllNodes(steps), Shown(steps, Some(a));
    FailuresAreBlamedOnOneStep(g, w, steps, a.start);
    assert BlamedExactly(w, steps, a.start, shown);
    EntriesDescribeNodes(steps, [], 0, true);
    forall k | 0 <= k < |nodes|
      ensures shown[k].stage != At(Running)
    {
      EveryStepIsAccounted(g, w, steps, a.start, k);
    }
    hide Run, EndsBetween, AllNodes, Shown, Listing;
    FinalisationBlamesNoOther(shown);
    if !EndsBetween(w, steps, a.start) {
      var place :| FailedExactlyAround(shown, nodes, place);
      assert FailedExactlyAround(FinalAll(shown, false), nodes, place);
    }
  }

  /**
   * Such runs exist: when the chat of the task cannot be found in the last attempt, or a legacy
   * condition at its start cannot be normalized, every step is shown as skipped in the end.
   */
  lemma NothingReportedIsSkipped(w: World, steps: seq<Step>, a: Attempt)
    requires Ended(w, steps, a, true)
    requires !w.enters(a.start) || (steps != [] && !WellFormed(w, steps[0]))
    ensures var final := FinalAll(Shown(steps, Some(a)), false);
            |final| == |AllNodes(steps)| && forall k :: 0 <= k < |final| ==> final[k].stage == At(Skipped)
  {
    EntriesDescribeNodes(steps, [], 0, true);
    if w.enters(a.start) {
      assert RunStep(w, steps[0], [] + [0], true, Initial(a.start + 1)) == (Stopped(Malformed), Initial(a.start + 1));
    }
    assert a.reached.reports == [] && Shown(steps, Some(a)) == Listing(steps);
  }

  /**
   * A whole run, from its empty list to finalisation: in the end every node of the workflow has
   * settled, whether the run succeeded, ran out of attempts or was cancelled. After a success the
   * list says of each node exactly what the successful attempt did with it. Otherwise it shows as
   * failed exactly the step at which the last attempt ended and the conditions around it, or nothing:
   * exactly if no attempt was started or the last one ended outside its steps.
   */
  method ExecuteRun(tracker: ProgressTracker, taskId: string, runId: string, g: Grammar, w: World, steps: seq<Step>,
                    maxAttempts: nat, tick: nat)
    returns (result: Retried)
    requires maxAttempts >= 1 && Checker.Accepts(g, steps)
    modifies tracker
    ensures Explained(w, steps, maxAttempts, tick, result)
    ensures tracker.Tracks(taskId, runId) && tracker.runs[taskId].status == StatusOf(result)
    ensures Settled(tracker.runs[taskId].entries, AllNodes(steps))
    ensures result.RunSucceeded? ==>
              TellsTheTruth(tracker.runs[taskId].entries, AllNodes(steps), result.last.reached.reports)
    ensures !result.RunSucceeded? ==>
              match LastAttempt(result)
              case None => NoneFailed(tracker.runs[taskId].entries)
              case Some(a) => BlamedExactly(w, steps, a.start, tracker.runs[taskId].entries)
  {
    tracker.InitializeRun(taskId, runId, steps);
    result := RunWithRetries(tracker, taskId, runId, w, steps, maxAttempts, tick);
    tracker.FinalizeRun(taskId, runId, StatusOf(result));
    FinalListIsSettled(steps, LastAttempt(result), result.RunSucceeded?);
    RetriesStopInTime(w, steps, 1, maxAttempts, tick, None);
    if result.RunSucceeded? {
      SuccessIsShown(g, w, steps, result.last);
    } else if LastAttempt(result).Some? {
      FailureIsShown(g, w, steps, LastAttempt(result).value);
    }
  }
}
