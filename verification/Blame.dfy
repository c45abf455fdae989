/**
 * Which steps a failed run blames: the step that failed and the conditions around it, or none if it
 * ended between two top-level steps.
 */
module Blame {
  import opened Wrappers
  import opened Workflow
  import opened Interpreter
  import opened SourceSoundness
  import opened Progress
  import opened Accounting
  import Checker

  /** `n` is the step at `p` or a condition around it. */
  predicate Around(n: Node, nodes: seq<Node>, p: Option<seq<nat>>) { p.Some? && n in nodes && n.path <= p.value }

  /** Failed is reported once for each node around `p`, as its last status, and for no other. */
  ghost predicate Blames(reports: seq<Report>, nodes: seq<Node>, p: Option<seq<nat>>) {
    && (forall n :: Count(reports, Failed, n) == if Around(n, nodes, p) then 1 else 0)
    && (forall n :: LastStage(reports, n) == At(Failed) <==> Count(reports, Failed, n) > 0)
  }

  /** The blamed place is that of a node. */
  ghost predicate Placed(nodes: seq<Node>, p: Option<seq<nat>>) {
    p.Some? ==> exists n :: n in nodes && n.path == p.value
  }

  /** A place below `prefix`, at position `i` or later, before `stop` if one is given. */
  predicate Below(p: seq<nat>, prefix: seq<nat>, i: nat, stop: Option<nat>) {
    && |p| > |prefix| && p[..|prefix|] == prefix && p[|prefix|] >= i && (stop.Some? ==> p[|prefix|] < stop.value)
  }

  lemma BlamesConcat(a: seq<Report>, na: seq<Node>, b: seq<Report>, nb: seq<Node>, p: Option<seq<nat>>)
    requires Blames(a, na, None) && Blames(b, nb, p) && forall n :: n in na ==> !Around(n, na, p)
    ensures Blames(a + b, na + nb, p)
  {
    forall n
      ensures Count(a + b, Failed, n) == if Around(n, na + nb, p) then 1 else 0
      ensures LastStage(a + b, n) == At(Failed) <==> Count(a + b, Failed, n) > 0
    {
      CountConcat(a, b, Failed, n);
      LastStageConcat(a, b, n);
      assert !Around(n, na, None);
      assert Around(n, na + nb, p) <==> Around(n, na, p) || Around(n, nb, p);
    }
  }

  /** Every report says that a step is skipped. */
  predicate OnlySkips(reports: seq<Report>) { forall k :: 0 <= k < |reports| ==> reports[k].status == Skipped }

  lemma {:induction false} SkipsBlameNobody(reports: seq<Report>, n: Node)
    requires OnlySkips(reports)
    ensures Count(reports, Failed, n) == 0 && LastStage(reports, n) != At(Failed)
    decreases |reports|
  {
    if reports != [] {
      var init, last := reports[..|reports| - 1], [reports[|reports| - 1]];
      assert reports == init + last && last == [Report(last[0].node, Skipped)];
      SkipsBlameNobody(init, n);
      SingleCount(last[0].node, Skipped);
      CountConcat(init, last, Failed, n);
    }
  }

  /** Marking steps as skipped reports nothing else. */
  lemma {:induction false} SkippingOnlySkips(w: World, steps: seq<Step>, prefix: seq<nat>, i: nat)
    ensures OnlySkips(SkipSteps(w, steps, prefix, i).reports)
    decreases steps, 0
  {
    if steps != [] {
      if steps[0].Condition? {
        SkippingBranchesOnlySkips(w, steps[0].branches, prefix + [i], 0, |steps[0].branches|);
      }
      SkippingOnlySkips(w, steps[1..], prefix, i + 1);
    }
  }

  lemma {:induction false} SkippingBranchesOnlySkips(w: World, branches: seq<Branch>, path: seq<nat>, b: nat, keep: nat)
    ensures OnlySkips(SkipBranches(w, branches, path, b, keep).reports)
    decreases branches, 0
  {
    if branches != [] {
      SkippingOnlySkips(w, branches[0].steps, path + [b], 0);
      SkippingBranchesOnlySkips(w, branches[1..], path, b + 1, keep);
    }
  }

  lemma StartedBlames(node: Node, end: Status)
    requires end.Success? || end.Failed?
    ensures Blames([Report(node, Running), Report(node, end)], [node], if end.Failed? then Some(node.path) else None)
  {
    var a, b := [Report(node, Running)], [Report(node, end)];
    assert [Report(node, Running), Report(node, end)] == a + b;
    SingleCount(node, Running);
    SingleCount(node, end);
    forall n
      ensures var r := a + b;
              && Count(r, Failed, n) == (if end.Failed? && n == node then 1 else 0)
              && (LastStage(r, n) == At(Failed) <==> Count(r, Failed, n) > 0)
    {
      CountConcat(a, b, Failed, n);
      LastStageConcat(a, b, n);
    }
  }

  // ----- between two steps -----

  /** The run ends before this step is reported running: it cannot be normalized, or the run is cancelled. */
  predicate EndsBefore(w: World, step: Step, st: State) { !WellFormed(w, step) || w.cancelled(st.tick) }

  predicate ReachesAndEndsBefore(w: World, steps: seq<Step>, prefix: seq<nat>, i: nat, top: bool, st: State, k: nat) {
    k < |steps| &&
    var (o, reached) := RunSteps(w, steps[..k], prefix, i, top, st);
    o.Done? && EndsBefore(w, steps[k], reached)
  }

  /** All steps up to one of them complete, and the run ends before that one. */
  ghost predicate StopsBetween(w: World, steps: seq<Step>, prefix: seq<nat>, i: nat, top: bool, st: State) {
    exists k: nat :: ReachesAndEndsBefore(w, steps, prefix, i, top, st, k)
  }

  lemma ReachesLater(w: World, steps: seq<Step>, prefix: seq<nat>, i: nat, top: bool, st: State, k: nat)
    requires steps != [] && k > 0
    ensures var (o, st') := RunStep(w, steps[0], prefix + [i], top, st);
            ReachesAndEndsBefore(w, steps, prefix, i, top, st, k)
            <==> o.Done? && ReachesAndEndsBefore(w, steps[1..], prefix, i + 1, top, st', k - 1)
  {
    hide RunStep, EndsBefore;
    if k < |steps| {
      assert steps[..k][0] == steps[0] && steps[..k][1..] == steps[1..][..k - 1];
    }
  }

  lemma StopsBetweenLater(w: World, steps: seq<Step>, prefix: seq<nat>, i: nat, top: bool, st: State)
    requires steps != []
    ensures var (o, st') := RunStep(w, steps[0], prefix + [i], top, st);
            StopsBetween(w, steps, prefix, i, top, st)
            <==> EndsBefore(w, steps[0], st) || (o.Done? && StopsBetween(w, steps[1..], prefix, i + 1, top, st'))
  {
    var (o, st') := RunStep(w, steps[0], prefix + [i], top, st);
    assert steps[..0] == [] && RunSteps(w, [], prefix, i, top, st) == (Done, st);
    assert ReachesAndEndsBefore(w, steps, prefix, i, top, st, 0) <==> EndsBefore(w, steps[0], st);
    var rest, next := steps[1..], i + 1;
    hide RunStep, RunSteps, EndsBefore, ReachesAndEndsBefore;
    if k: nat :| ReachesAndEndsBefore(w, steps, prefix, i, top, st, k) {
      if k > 0 {
        ReachesLater(w, steps, prefix, i, top, st, k);
      }
    }
    if o.Done? {
      if k: nat :| ReachesAndEndsBefore(w, rest, prefix, next, top, st', k) {
        ReachesLater(w, steps, prefix, i, top, st, k + 1);
      }
    }
  }

  // ----- who is blamed -----

  lemma {:induction false} StepsBlame(w: World, steps: seq<Step>, prefix: seq<nat>, i: nat, top: bool, st: State)
    returns (added: seq<Report>, p: Option<seq<nat>>)
    requires Unique(steps)
    ensures var (o, st') := RunSteps(w, steps, prefix, i, top, st);
            && st'.reports == st.reports + added
            && Blames(added, Nodes(steps, prefix, i, top), p) && Placed(Nodes(steps, prefix, i, top), p)
            && (o.Done? ==> p == None)
            && (o.Stopped? ==> (p == None <==> StopsBetween(w, steps, prefix, i, top, st)))
            && (p.Some? ==> Below(p.value, prefix, i, None))
    decreases steps, 0
  {
    if steps == [] {
      added, p := [], None;
    } else {
      StopsBetweenLater(w, steps, prefix, i, top, st);
      hide Blames, Placed, Below, UniqueStep, Under, StopsBetween, EndsBefore;
      var here, later := StepNodes(steps[0], prefix + [i], top), Nodes(steps[1..], prefix, i + 1, top);
      StepNodesAreSeparate(steps[0], prefix, i, top);
      NodesAreSeparate(steps[1..], prefix, i + 1, top);
      var first, q := StepBlames(w, steps[0], prefix, i, top, st);
      var (o, st') := RunStep(w, steps[0], prefix + [i], top, st);
      if o.Done? {
        var rest;
        rest, p := StepsBlame(w, steps[1..], prefix, i + 1, top, st');
        added := first + rest;
        ChainTwo(st.reports, first, rest);
        BlamesConcat(first, here, rest, later, p);
      } else {
        added, p := first, q;
      }
    }
  }

  lemma {:induction false} StepBlames(w: World, step: Step, prefix: seq<nat>, i: nat, top: bool, st: State)
    returns (added: seq<Report>, p: Option<seq<nat>>)
    requires UniqueStep(step)
    ensures var (o, st') := RunStep(w, step, prefix + [i], top, st);
            && st'.reports == st.reports + added
            && Blames(added, StepNodes(step, prefix + [i], top), p) && Placed(StepNodes(step, prefix + [i], top), p)
            && (o.Done? ==> p == None && !EndsBefore(w, step, st))
            && (o.Stopped? ==> (p == None <==> EndsBefore(w, step, st)))
            && (p.Some? ==> Below(p.value, prefix, i, Some(i + 1)))
    decreases step, 1
  {
    hide RunPlain, RunCondition, UniqueStep;
    var path := prefix + [i];
    var node := NodeAt(step, path, top);
    if EndsBefore(w, step, st) {
      added, p := [], None;
    } else if step.Condition? {
      hide Blames, Placed;
      added, p := ConditionBlames(w, step, prefix, i, top, Ticked(st));
    } else {
      var end := if RunPlain(w, step, node, Reported(Ticked(st), node, Running)).0.Done? then Success else Failed;
      added, p := [Report(node, Running), Report(node, end)], if end.Failed? then Some(path) else None;
      StartedBlames(node, end);
      assert StepNodes(step, path, top) == [node] && node in [node];
      ChainTwo(st.reports, [Report(node, Running)], [Report(node, end)]);
    }
  }

  /** A node of the branch that its path names. */
  predicate InItsBranch(branches: seq<Branch>, path: seq<nat>, b: nat, n: Node) {
    && Below(n.path, path, b, Some(b + |branches|))
    && n in Nodes(branches[n.path[|path|] - b].steps, path + [n.path[|path|]], 0, false)
  }

  /** A node of the branches lies in the branch that its path names, and conversely. */
  lemma {:induction false} BranchOf(branches: seq<Branch>, path: seq<nat>, b: nat, n: Node)
    requires UniqueBranches(branches)
    ensures n in BranchNodes(branches, path, b) <==> InItsBranch(branches, path, b, n)
    decreases branches
  {
    if branches != [] {
      var first, rest := Nodes(branches[0].steps, path + [b], 0, false), BranchNodes(branches[1..], path, b + 1);
      BranchOf(branches[1..], path, b + 1, n);
      FirstBranchIsBelow(branches[0], path, b, n);
      assert n in BranchNodes(branches, path, b) <==> n in first || n in rest;
      hide Nodes, BranchNodes, UniqueBranches;
      if n in rest {
        assert branches[1..][n.path[|path|] - (b + 1)] == branches[n.path[|path|] - b];
      }
      if InItsBranch(branches, path, b, n) && n.path[|path|] != b {
        assert branches[1..][n.path[|path|] - (b + 1)] == branches[n.path[|path|] - b];
        assert InItsBranch(branches[1..], path, b + 1, n);
      }
    }
  }

  lemma FirstBranchIsBelow(branch: Branch, path: seq<nat>, b: nat, n: Node)
    requires Unique(branch.steps)
    ensures n in Nodes(branch.steps, path + [b], 0, false) ==> Below(n.path, path, b, Some(b + 1))
  {
    NodesAreSeparate(branch.steps, path + [b], 0, false);
    UnderShorter(Nodes(branch.steps, path + [b], 0, false), path, b, 0, Ids(branch.steps));
  }

  /** Blame inside the selected branch is blame among the nodes of all branches. */
  lemma InsideBlames(step: Step, path: seq<nat>, k: nat, nested: seq<Report>, q: Option<seq<nat>>)
    requires step.Condition? && UniqueStep(step) && k < |step.branches|
    requires Blames(nested, Nodes(step.branches[k].steps, path + [k], 0, false), q)
    requires q.Some? ==> Below(q.value, path + [k], 0, None)
    ensures Blames(nested, BranchNodes(step.branches, path, 0), q)
  {
    var inside, all := Nodes(step.branches[k].steps, path + [k], 0, false), BranchNodes(step.branches, path, 0);
    BranchesAreUnique(step.branches, k);
    NodesAreSeparate(step.branches[k].steps, path + [k], 0, false);
    UnderShorter(inside, path, k, 0, Ids(step.branches[k].steps));
    forall n
      ensures Around(n, inside, q) <==> Around(n, all, q)
    {
      BranchOf(step.branches, path, 0, n);
      hide Nodes, BranchNodes, Separate, UniqueStep;
      if Around(n, inside, q) {
        assert Below(n.path, path, 0, Some(|step.branches|)) && n.path[|path|] == k;
      }
      if Around(n, all, q) {
        assert n.path[|path|] == q.value[|path|] == (path + [k])[|path|];
      }
    }
  }

  lemma InsidePlaced(step: Step, path: seq<nat>, k: nat, q: Option<seq<nat>>)
    requires step.Condition? && UniqueStep(step) && k < |step.branches|
    requires Placed(Nodes(step.branches[k].steps, path + [k], 0, false), q)
    requires q.Some? ==> Below(q.value, path + [k], 0, None)
    ensures Placed(BranchNodes(step.branches, path, 0), q)
  {
    var inside := Nodes(step.branches[k].steps, path + [k], 0, false);
    if q.Some? {
      var n :| n in inside && n.path == q.value;
      BranchOf(step.branches, path, 0, n);
      hide Nodes, BranchNodes, UniqueStep;
      assert n.path[..|path| + 1] == path + [k];
      assert n.path[..|path|] == n.path[..|path| + 1][..|path|] && n.path[|path|] == n.path[..|path| + 1][|path|];
    }
  }

  lemma NestedAreNotAround(step: Step, path: seq<nat>)
    requires step.Condition? && UniqueStep(step)
    ensures var nested := BranchNodes(step.branches, path, 0);
            forall n :: n in nested ==> |n.path| > |path| && !Around(n, nested, Some(path))
  {
    BranchNodesAreSeparate(step.branches, path, 0);
  }

  /** The condition around a failure, or the failing one, is reported failed at the end. */
  lemma OwnFailure(step: Step, path: seq<nat>, top: bool, rest: seq<Report>, q: Option<seq<nat>>)
    requires step.Condition? && UniqueStep(step) && Blames(rest, BranchNodes(step.branches, path, 0), q)
    requires q.Some? ==> path <= q.value
    ensures var node := NodeAt(step, path, top);
            Blames([Report(node, Running), Report(node, Success)] + rest + [Report(node, Failed)], StepNodes(step, path, top),
                   Some(if q.Some? then q.value else path))
  {
    var node, nested, nodes := NodeAt(step, path, top), BranchNodes(step.branches, path, 0), StepNodes(step, path, top);
    var own, last := [Report(node, Running), Report(node, Success)], [Report(node, Failed)];
    var p := Some(if q.Some? then q.value else path);
    StartedBlames(node, Success);
    SingleCount(node, Failed);
    NestedAreNotAround(step, path);
    assert nodes == [node] + nested;
    hide StepNodes, BranchNodes, NodeAt, UniqueStep, Count, LastStage;
    forall n
      ensures var r := own + rest + last;
              && Count(r, Failed, n) == (if Around(n, nodes, p) then 1 else 0)
              && (LastStage(r, n) == At(Failed) <==> Count(r, Failed, n) > 0)
    {
      CountConcat(own + rest, last, Failed, n);
      CountConcat(own, rest, Failed, n);
      LastStageConcat(own + rest, last, n);
      LastStageConcat(own, rest, n);
      assert Around(n, nodes, p) <==> n == node || Around(n, nested, q);
    }
  }

  lemma BranchBlames(w: World, step: Step, prefix: seq<nat>, i: nat, top: bool, k: nat, nested: seq<Report>,
                     q: Option<seq<nat>>, done: bool)
    returns (p: Option<seq<nat>>)
    requires step.Condition? && UniqueStep(step) && k < |step.branches| && (done ==> q == None)
    requires var inside := Nodes(step.branches[k].steps, prefix + [i] + [k], 0, false);
             Blames(nested, inside, q) && Placed(inside, q)
    requires q.Some? ==> Below(q.value, prefix + [i] + [k], 0, None)
    ensures var path := prefix + [i];
            var nodes, skips := StepNodes(step, path, top), SkipBranches(w, step.branches, path, 0, k).reports;
            var added := AroundBranch(NodeAt(step, path, top), skips, nested, done);
            Blames(added, nodes, p) && Placed(nodes, p)
    ensures (done <==> p == None) && (p.Some? ==> Below(p.value, prefix, i, Some(i + 1)))
  {
    var path := prefix + [i];
    var node, all := NodeAt(step, path, top), BranchNodes(step.branches, path, 0);
    var skips := SkipBranches(w, step.branches, path, 0, k).reports;
    SkippingBranchesOnlySkips(w, step.branches, path, 0, k);
    assert Blames(skips, [], None) by {
      forall n
        ensures Count(skips, Failed, n) == 0 && LastStage(skips, n) != At(Failed)
      {
        SkipsBlameNobody(skips, n);
      }
    }
    InsideBlames(step, path, k, nested, q);
    InsidePlaced(step, path, k, q);
    BlamesConcat(skips, [], nested, all, q);
    assert [] + all == all;
    StartedBlames(node, Success);
    assert node.path == path && StepNodes(step, path, top) == [node] + all;
    hide Blames, Placed, Below, Around, Nodes, BranchNodes, SkipBranches, NodeAt, StepNodes;
    if done {
      p := None;
      BlamesConcat([Report(node, Running), Report(node, Success)], [node], skips + nested, all, None);
    } else {
      p := Some(if q.Some? then q.value else path);
      OwnFailure(step, path, top, skips + nested, q);
    }
  }

  lemma {:induction false} ConditionBlames(w: World, step: Step, prefix: seq<nat>, i: nat, top: bool, st: State)
    returns (added: seq<Report>, p: Option<seq<nat>>)
    requires step.Condition? && UniqueStep(step)
    ensures var node := NodeAt(step, prefix + [i], top);
            var (o, st') := RunCondition(w, step, node, Reported(st, node, Running));
            && (if o.Done? then st'.reports else st'.reports + [Report(node, Failed)]) == st.reports + added
            && Blames(added, StepNodes(step, prefix + [i], top), p) && Placed(StepNodes(step, prefix + [i], top), p)
            && (o.Done? <==> p == None)
            && (p.Some? ==> Below(p.value, prefix, i, Some(i + 1)))
    decreases step, 0
  {
    hide Blames, Placed, Below, UniqueStep, Selection, NodeAt, SkipBranches, StopsBetween, StepNodes, Nodes, RunSteps, RunStep;
    var path := prefix + [i];
    var node := NodeAt(step, path, top);
    var (r, chosen) := Selection(w, step, Reported(st, node, Running));
    if r.Value? {
      var k := r.v;
      var marking := SkipBranches(w, step.branches, path, 0, k);
      var skipped := Reported(chosen, node, Success).(reports := chosen.reports + [Report(node, Success)] + marking.reports);
      StepBranchesAreUnique(step, k);
      NobodyIsBlamedAtFirst(Nodes(step.branches[k].steps, path + [k], 0, false));
      var nested: seq<Report>, q: Option<seq<nat>>, done := [], None, false;
      if marking.whole {
        nested, q := StepsBlame(w, step.branches[k].steps, path + [k], 0, false, skipped);
        done := RunSteps(w, step.branches[k].steps, path + [k], 0, false, skipped).0.Done?;
      }
      p := BranchBlames(w, step, prefix, i, top, k, nested, q, done);
      added := AroundBranch(node, marking.reports, nested, done);
      Chain(st.reports, Report(node, Running), Report(node, Success), marking.reports, nested);
      ChainTwo(st.reports, [Report(node, Running), Report(node, Success)] + (marking.reports + nested), [Report(node, Failed)]);
    } else {
      added, p := [Report(node, Running), Report(node, Failed)], Some(path);
      OwnFailureOnly(step, prefix, i, top);
      ChainTwo(st.reports, [Report(node, Running)], [Report(node, Failed)]);
    }
  }

  lemma OwnFailureOnly(step: Step, prefix: seq<nat>, i: nat, top: bool)
    requires step.Condition? && UniqueStep(step)
    ensures var path := prefix + [i];
            var node, nodes := NodeAt(step, path, top), StepNodes(step, path, top);
            Blames([Report(node, Running), Report(node, Failed)], nodes, Some(path)) && Placed(nodes, Some(path))
    ensures Below(prefix + [i], prefix, i, Some(i + 1))
  {
    var path := prefix + [i];
    StartedBlames(NodeAt(step, path, top), Failed);
    NestedAreNotAround(step, path);
  }

  lemma NobodyIsBlamedAtFirst(nodes: seq<Node>)
    ensures Blames([], nodes, None) && Placed(nodes, None)
  {
  }

  // ----- what the list shows after a failure -----

  /** Shown as failed are exactly the step at `place` and the conditions around it. */
  ghost predicate FailedExactlyAround(entries: seq<Entry>, nodes: seq<Node>, place: seq<nat>) {
    && |entries| == |nodes|
    && (exists n :: n in nodes && n.path == place)
    && forall k :: 0 <= k < |nodes| ==> (entries[k].stage == At(Failed) <==> nodes[k].path <= place)
  }

  /** Nothing is shown as failed. */
  predicate NoneFailed(entries: seq<Entry>) { forall k :: 0 <= k < |entries| ==> entries[k].stage != At(Failed) }

  /** The attempt started at `tick` never gets to its steps, or ends before one of the top-level steps. */
  ghost predicate EndsBetween(w: World, steps: seq<Step>, tick: nat) {
    !w.enters(tick) || StopsBetween(w, steps, [], 0, true, Initial(tick + 1))
  }

  /** The failure of the attempt started at `tick` is blamed on one step and the conditions around it, or on none. */
  ghost predicate BlamedExactly(w: World, steps: seq<Step>, tick: nat, entries: seq<Entry>) {
    if EndsBetween(w, steps, tick) then |entries| == |AllNodes(steps)| && NoneFailed(entries)
    else exists place :: FailedExactlyAround(entries, AllNodes(steps), place)
  }

  /**
   * Blame: when a run of an accepted workflow does not succeed, whether it failed or was cancelled,
   * there is one step such that the progress list shows as failed exactly this step and the conditions
   * around it - unless it ended before its first step or between two top-level steps, because the chat
   * was not found, a legacy condition could not be normalized, or it was cancelled; exactly then
   * nothing is shown as failed.
   */
  lemma FailuresAreBlamedOnOneStep(g: Grammar, w: World, steps: seq<Step>, tick: nat)
    requires Checker.Accepts(g, steps) && Run(w, steps, tick).0.Stopped?
    ensures BlamedExactly(w, steps, tick, Deliver(Listing(steps), Run(w, steps, tick).1.reports))
  {
    var nodes, entries := AllNodes(steps), Deliver(Listing(steps), Run(w, steps, tick).1.reports);
    EntriesDescribeNodes(steps, [], 0, true);
    if w.enters(tick) {
      StepsRegisterIds(g, steps, 0, Checker.EMPTY_SCOPE, {});
      var added, p := StepsBlame(w, steps, [], 0, true, Initial(tick + 1));
      assert [] + added == added;
      forall k | 0 <= k < |nodes|
        ensures entries[k].stage == At(Failed) <==> p.Some? && nodes[k].path <= p.value
      {
        EveryStepIsAccounted(g, w, steps, tick, k);
        assert Around(nodes[k], nodes, p) <==> p.Some? && nodes[k].path <= p.value;
      }
      if p.Some? {
        assert FailedExactlyAround(entries, nodes, p.value);
      }
    }
  }

  /** When the chat is not found, the list still shows every step as pending. */
  lemma UnknownChatBlamesNobody(w: World, steps: seq<Step>, tick: nat)
    requires !w.enters(tick)
    ensures Run(w, steps, tick).0.Stopped? && Deliver(Listing(steps), Run(w, steps, tick).1.reports) == Listing(steps)
    ensures EndsBetween(w, steps, tick)
  {
  }

  // ----- an accepted workflow that blames nobody -----

  /** A legacy condition; what its rule looks like is checked only when it is normalized. */
  function LegacyChoice(rule: Rule): Step {
    Condition(None, false, false, [], [Branch(If, true, [rule], []), Branch(Else, true, [], [])])
  }

  lemma LegacyChoiceIsAccepted(g: Grammar, rule: Rule)
    ensures Checker.Accepts(g, [LegacyChoice(rule)])
  {
    var step := LegacyChoice(rule);
    assert [step][1..] == [] && step.branches[1..] == [step.branches[1]] && [step.branches[1]][1..] == [];
    assert Checker.CheckLegacyBranches(g, [step.branches[1]], 1, {}) == Some({});
    assert Checker.CheckLegacyBranches(g, step.branches, 1, {}) == Some({});
    assert Checker.CheckStep(g, step, 0, Checker.EMPTY_SCOPE, {}).Some?;
    assert Checker.CheckBranchSources([step.branches[1]], Checker.NO_SOURCES).Some?;
    assert Checker.CheckBranchSources(step.branches, Checker.NO_SOURCES).Some?;
    assert Checker.CheckStepSources(step, Checker.NO_SOURCES).Some?;
  }

  /** It is accepted; if it cannot be normalized, every attempt fails, and nothing is shown as failed. */
  lemma UnnormalizedConditionBlamesNobody(g: Grammar, w: World, rule: Rule, tick: nat)
    requires w.enters(tick) && !WellFormed(w, LegacyChoice(rule))
    ensures var steps := [LegacyChoice(rule)];
            && Checker.Accepts(g, steps) && Run(w, steps, tick).0 == Stopped(Malformed)
            && EndsBetween(w, steps, tick) && Deliver(Listing(steps), Run(w, steps, tick).1.reports) == Listing(steps)
  {
    var step, st := LegacyChoice(rule), Initial(tick + 1);
    LegacyChoiceIsAccepted(g, rule);
    assert [step][..0] == [];
    assert ReachesAndEndsBefore(w, [step], [], 0, true, st, 0);
    assert RunStep(w, step, [] + [0], true, st) == (Stopped(Malformed), st);
  }
}
