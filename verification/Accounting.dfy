/**
 * Faithful progress: what one run reports, and what its progress list shows in the end.
 */
module Accounting {
  import opened Wrappers
  import opened Workflow
  import opened Interpreter
  import opened SourceSoundness
  import opened Progress
  import Checker

  // ----- counting reports -----

  /** How often a node is reported with a status. */
  function Count(reports: seq<Report>, status: Status, n: Node): nat {
    if reports == [] then 0 else (if reports[0] == Report(n, status) then 1 else 0) + Count(reports[1..], status, n)
  }

  lemma {:induction false} CountConcat(a: seq<Report>, b: seq<Report>, status: Status, n: Node)
    ensures Count(a + b, status, n) == Count(a, status, n) + Count(b, status, n)
    decreases a
  {
    if a == [] {
      assert a + b == b;
    } else {
      assert (a + b)[1..] == a[1..] + b;
      CountConcat(a[1..], b, status, n);
    }
  }

  /** The status last reported for a node. */
  function LastStage(reports: seq<Report>, n: Node): Stage
    decreases |reports|
  {
    if reports == [] then Pending
    else if reports[|reports| - 1].node == n then At(reports[|reports| - 1].status)
    else LastStage(reports[..|reports| - 1], n)
  }

  lemma {:induction false} LastStageConcat(a: seq<Report>, b: seq<Report>, n: Node)
    ensures LastStage(a + b, n) == if LastStage(b, n) == Pending then LastStage(a, n) else LastStage(b, n)
    decreases |b|
  {
    if b == [] {
      assert a + b == a;
    } else {
      var c := a + b;
      assert c[..|c| - 1] == a + b[..|b| - 1] && c[|c| - 1] == b[|b| - 1];
      LastStageConcat(a, b[..|b| - 1], n);
    }
  }

  /**
   * One node's account over a stretch of a run in which it occurs `times` times: never both started
   * and skipped nor either one more often than it occurs; what succeeded or failed had started; it is
   * not left running. If the stretch completed, every occurrence was started or skipped, and every
   * started one succeeded.
   */
  predicate Account(reports: seq<Report>, n: Node, times: nat, done: bool) {
    && Count(reports, Running, n) + Count(reports, Skipped, n) <= times
    && Count(reports, Success, n) <= Count(reports, Running, n)
    && Count(reports, Failed, n) <= Count(reports, Running, n)
    && LastStage(reports, n) != At(Running)
    && (LastStage(reports, n) == Pending ==> Count(reports, Running, n) + Count(reports, Skipped, n) == 0)
    && (done ==>
          && Count(reports, Running, n) + Count(reports, Skipped, n) == times
          && Count(reports, Success, n) == Count(reports, Running, n) && Count(reports, Failed, n) == 0
          && LastStage(reports, n) != At(Failed))
    && (LastStage(reports, n) == At(Skipped) ==> Count(reports, Skipped, n) > 0)
    && (LastStage(reports, n) == At(Success) ==> Count(reports, Success, n) > 0)
  }

  ghost predicate Books(reports: seq<Report>, nodes: multiset<Node>, done: bool) {
    forall n :: Account(reports, n, nodes[n], done)
  }

  lemma BooksConcat(a: seq<Report>, b: seq<Report>, na: multiset<Node>, nb: multiset<Node>, done: bool)
    requires Books(a, na, true) && Books(b, nb, done)
    ensures Books(a + b, na + nb, done)
  {
    forall n
      ensures Account(a + b, n, (na + nb)[n], done)
    {
      CountConcat(a, b, Running, n);
      CountConcat(a, b, Skipped, n);
      CountConcat(a, b, Success, n);
      CountConcat(a, b, Failed, n);
      LastStageConcat(a, b, n);
      assert Account(a, n, na[n], true) && Account(b, n, nb[n], done);
    }
  }

  lemma SingleCount(n: Node, status: Status)
    ensures forall m, s :: Count([Report(n, status)], s, m) == if m == n && s == status then 1 else 0
    ensures forall m :: LastStage([Report(n, status)], m) == if m == n then At(status) else Pending
  {
    assert [Report(n, status)][..0] == [] && [Report(n, status)][1..] == [];
  }

  // ----- skipped steps -----

  /** Marking one stretch and then another, if the first got to its end. */
  lemma MarkingsConcat(a: Marking, b: Marking, na: multiset<Node>, nb: multiset<Node>)
    requires Books(a.reports, na, a.whole) && Books(b.reports, nb, b.whole)
    ensures Books(Then(a, b).reports, na + nb, Then(a, b).whole)
  {
    if a.whole {
      BooksConcat(a.reports, b.reports, na, nb, b.whole);
    } else {
      BooksOfMore(a.reports, na, nb);
    }
  }

  /** What did not get to its end is also an account of more. */
  lemma BooksOfMore(a: seq<Report>, na: multiset<Node>, nb: multiset<Node>)
    requires Books(a, na, false)
    ensures Books(a, na + nb, false)
  {
    forall n
      ensures Account(a, n, (na + nb)[n], false)
    {
      assert Account(a, n, na[n], false);
    }
  }

  lemma {:induction false} SkippingKeepsBooks(w: World, steps: seq<Step>, prefix: seq<nat>, i: nat)
    ensures var m := SkipSteps(w, steps, prefix, i);
            Books(m.reports, multiset(Nodes(steps, prefix, i, false)), m.whole)
    decreases steps, 0
  {
    if steps != [] {
      SkippingStepKeepsBooks(w, steps[0], prefix + [i]);
      SkippingKeepsBooks(w, steps[1..], prefix, i + 1);
      MarkingsConcat(SkipStep(w, steps[0], prefix + [i]), SkipSteps(w, steps[1..], prefix, i + 1),
                     multiset(StepNodes(steps[0], prefix + [i], false)), multiset(Nodes(steps[1..], prefix, i + 1, false)));
    }
  }

  lemma {:induction false} SkippingStepKeepsBooks(w: World, step: Step, path: seq<nat>)
    ensures var m := SkipStep(w, step, path); Books(m.reports, multiset(StepNodes(step, path, false)), m.whole)
    decreases step, 1
  {
    var node := NodeAt(step, path, false);
    SingleCount(node, Skipped);
    assert Books([Report(node, Skipped)], multiset{node}, true);
    assert multiset([node]) == multiset{node};
    if step.Condition? {
      SkippingOthersKeepsBooks(w, step.branches, path, 0, |step.branches|);
      OthersAndChosen(step.branches, path, 0, |step.branches|);
      MarkingsConcat(Marking(true, [Report(node, Skipped)]), SkipBranches(w, step.branches, path, 0, |step.branches|),
                     multiset{node}, multiset(BranchNodes(step.branches, path, 0)));
      BooksOfMore([Report(node, Skipped)], multiset{node}, multiset(BranchNodes(step.branches, path, 0)));
    } else {
      assert SkipStep(w, step, path).reports == [Report(node, Skipped)] && StepNodes(step, path, false) == [node];
    }
  }

  /** The nodes of all branches but the one at `keep`. */
  ghost function OtherNodes(branches: seq<Branch>, path: seq<nat>, b: nat, keep: nat): multiset<Node>
    decreases branches
  {
    if branches == [] then multiset{}
    else (if b == keep then multiset{} else multiset(Nodes(branches[0].steps, path + [b], 0, false)))
         + OtherNodes(branches[1..], path, b + 1, keep)
  }

  ghost function ChosenNodes(branches: seq<Branch>, path: seq<nat>, b: nat, keep: nat): multiset<Node> {
    if b <= keep < b + |branches| then multiset(Nodes(branches[keep - b].steps, path + [keep], 0, false)) else multiset{}
  }

  lemma {:induction false} OthersAndChosen(branches: seq<Branch>, path: seq<nat>, b: nat, keep: nat)
    ensures multiset(BranchNodes(branches, path, b)) == OtherNodes(branches, path, b, keep) + ChosenNodes(branches, path, b, keep)
    decreases branches
  {
    hide Nodes;
    if branches != [] {
      OthersAndChosen(branches[1..], path, b + 1, keep);
      var first, rest := Nodes(branches[0].steps, path + [b], 0, false), BranchNodes(branches[1..], path, b + 1);
      assert multiset(first + rest) == multiset(first) + multiset(rest);
      if b == keep {
        assert ChosenNodes(branches, path, b, keep) == multiset(first);
        assert ChosenNodes(branches[1..], path, b + 1, keep) == multiset{};
      } else {
        assert ChosenNodes(branches, path, b, keep) == ChosenNodes(branches[1..], path, b + 1, keep);
      }
    }
  }

  lemma {:induction false} SkippingOthersKeepsBooks(w: World, branches: seq<Branch>, path: seq<nat>, b: nat, keep: nat)
    ensures var m := SkipBranches(w, branches, path, b, keep);
            Books(m.reports, OtherNodes(branches, path, b, keep), m.whole)
    decreases branches, 0
  {
    if branches != [] {
      SkippingKeepsBooks(w, branches[0].steps, path + [b], 0);
      SkippingOthersKeepsBooks(w, branches[1..], path, b + 1, keep);
      MarkingsConcat(if b == keep then Marking(true, []) else SkipSteps(w, branches[0].steps, path + [b], 0),
                     SkipBranches(w, branches[1..], path, b + 1, keep),
                     if b == keep then multiset{} else multiset(Nodes(branches[0].steps, path + [b], 0, false)),
                     OtherNodes(branches[1..], path, b + 1, keep));
    }
  }

  // ----- executed steps -----

  lemma StartedAndEnded(n: Node, end: Status)
    requires end.Success? || end.Failed?
    ensures Books([Report(n, Running), Report(n, end)], multiset{n}, end.Success?)
  {
    var a, b := [Report(n, Running)], [Report(n, end)];
    assert [Report(n, Running), Report(n, end)] == a + b;
    SingleCount(n, Running);
    SingleCount(n, end);
    forall m
      ensures Account(a + b, m, multiset{n}[m], end.Success?)
    {
      CountConcat(a, b, Running, m);
      CountConcat(a, b, Skipped, m);
      CountConcat(a, b, Success, m);
      CountConcat(a, b, Failed, m);
      LastStageConcat(a, b, m);
    }
  }

  /** A condition whose branch fails is reported failed after it was reported successful. */
  lemma FailedAfterwards(reports: seq<Report>, n: Node, nodes: multiset<Node>)
    requires Books(reports, nodes, false) && Count(reports, Running, n) > 0 && Count(reports, Failed, n) == 0
    ensures Books(reports + [Report(n, Failed)], nodes, false)
  {
    var last := [Report(n, Failed)];
    SingleCount(n, Failed);
    forall m
      ensures Account(reports + last, m, nodes[m], false)
    {
      CountConcat(reports, last, Running, m);
      CountConcat(reports, last, Skipped, m);
      CountConcat(reports, last, Success, m);
      CountConcat(reports, last, Failed, m);
      LastStageConcat(reports, last, m);
      assert Account(reports, m, nodes[m], false);
    }
  }

  lemma Chain(r: seq<Report>, x: Report, y: Report, a: seq<Report>, b: seq<Report>)
    ensures r + [x] + [y] + a + b == r + ([x, y] + (a + b))
  {
  }

  lemma ChainTwo(r: seq<Report>, a: seq<Report>, b: seq<Report>)
    ensures r + a + b == r + (a + b)
  {
  }

  lemma {:induction false} StepsKeepBooks(w: World, steps: seq<Step>, prefix: seq<nat>, i: nat, top: bool, st: State)
    returns (added: seq<Report>)
    requires Unique(steps)
    ensures var (o, st') := RunSteps(w, steps, prefix, i, top, st);
            && st'.reports == st.reports + added
            && Books(added, multiset(Nodes(steps, prefix, i, top)), o.Done?)
    decreases steps, 0
  {
    if steps == [] {
      added := [];
    } else {
      var first := StepKeepsBooks(w, steps[0], prefix, i, top, st);
      var (o, st') := RunStep(w, steps[0], prefix + [i], top, st);
      var here, later := multiset(StepNodes(steps[0], prefix + [i], top)), multiset(Nodes(steps[1..], prefix, i + 1, top));
      if o.Done? {
        var rest := StepsKeepBooks(w, steps[1..], prefix, i + 1, top, st');
        var (o1, st1) := RunSteps(w, steps[1..], prefix, i + 1, top, st');
        added := first + rest;
        BooksConcat(first, rest, here, later, o1.Done?);
        assert RunSteps(w, steps, prefix, i, top, st) == (o1, st1);
        ChainTwo(st.reports, first, rest);
      } else {
        added := first;
      }
    }
  }

  lemma {:induction false} StepKeepsBooks(w: World, step: Step, prefix: seq<nat>, i: nat, top: bool, st: State)
    returns (added: seq<Report>)
    requires UniqueStep(step)
    ensures var (o, st') := RunStep(w, step, prefix + [i], top, st);
            && st'.reports == st.reports + added
            && Books(added, multiset(StepNodes(step, prefix + [i], top)), o.Done?)
    decreases step, 1
  {
    hide RunPlain, RunCondition;
    var path := prefix + [i];
    var node := NodeAt(step, path, top);
    if !WellFormed(w, step) || w.cancelled(st.tick) {
      added := [];
    } else {
      var started := Reported(Ticked(st), node, Running);
      if step.Condition? {
        added := ConditionKeepsBooks(w, step, prefix, i, top, Ticked(st));
      } else {
        var end := if RunPlain(w, step, node, started).0.Done? then Success else Failed;
        added := [Report(node, Running), Report(node, end)];
        StartedAndEnded(node, end);
        assert StepNodes(step, path, top) == [node] && multiset([node]) == multiset{node};
        assert st.reports + [Report(node, Running)] + [Report(node, end)] == st.reports + added;
      }
    }
  }

  /** Reports about the branches of a condition say nothing about the condition itself. */
  lemma OwnReportsOnly(step: Step, prefix: seq<nat>, i: nat, top: bool, rest: seq<Report>)
    requires step.Condition? && UniqueStep(step)
    requires Books(rest, multiset(BranchNodes(step.branches, prefix + [i], 0)), false)
    ensures var node := NodeAt(step, prefix + [i], top);
            var reports := [Report(node, Running), Report(node, Success)] + rest;
            Count(reports, Running, node) > 0 && Count(reports, Failed, node) == 0
  {
    var path := prefix + [i];
    var node, nested := NodeAt(step, path, top), BranchNodes(step.branches, path, 0);
    BranchNodesAreSeparate(step.branches, path, 0);
    assert forall k :: 0 <= k < |nested| ==> |nested[k].path| > |path|;
    assert node !in nested && multiset(nested)[node] == 0;
    assert Account(rest, node, 0, false);
    var own := [Report(node, Running), Report(node, Success)];
    assert own[1..] == [Report(node, Success)] && own[1..][1..] == [];
    CountConcat(own, rest, Running, node);
    CountConcat(own, rest, Failed, node);
  }

  lemma ConditionNodeFirst(step: Step, path: seq<nat>, top: bool)
    requires step.Condition?
    ensures multiset(StepNodes(step, path, top))
            == multiset{NodeAt(step, path, top)} + multiset(BranchNodes(step.branches, path, 0))
  {
    assert multiset([NodeAt(step, path, top)]) == multiset{NodeAt(step, path, top)};
  }

  /** What a condition reports, with the reports `skips` about the other branches and `nested` about its own. */
  function AroundBranch(node: Node, skips: seq<Report>, nested: seq<Report>, done: bool): seq<Report> {
    var own := [Report(node, Running), Report(node, Success)] + (skips + nested);
    if done then own else own + [Report(node, Failed)]
  }

  /** Whatever the selected branch did; if marking the others did not get to its end, it did nothing. */
  lemma BranchKeepsBooks(w: World, step: Step, prefix: seq<nat>, i: nat, top: bool, k: nat, nested: seq<Report>, done: bool)
    requires step.Condition? && UniqueStep(step) && k < |step.branches|
    requires var path := prefix + [i];
             if SkipBranches(w, step.branches, path, 0, k).whole
             then Books(nested, multiset(Nodes(step.branches[k].steps, path + [k], 0, false)), done)
             else nested == [] && !done
    ensures var path := prefix + [i];
            var skips := SkipBranches(w, step.branches, path, 0, k).reports;
            var added := AroundBranch(NodeAt(step, path, top), skips, nested, done);
            Books(added, multiset(StepNodes(step, path, top)), done)
  {
    var path := prefix + [i];
    var node, marking := NodeAt(step, path, top), SkipBranches(w, step.branches, path, 0, k);
    var others, inside := OtherNodes(step.branches, path, 0, k), multiset(Nodes(step.branches[k].steps, path + [k], 0, false));
    var all, own := multiset(BranchNodes(step.branches, path, 0)), [Report(node, Running), Report(node, Success)];
    var rest := marking.reports + nested;
    ConditionNodeFirst(step, path, top);
    OthersAndChosen(step.branches, path, 0, k);
    assert all == others + inside;
    StartedAndEnded(node, Success);
    SkippingOthersKeepsBooks(w, step.branches, path, 0, k);
    hide Nodes, BranchNodes, StepNodes, OtherNodes, SkipBranches, NodeAt, Books, UniqueStep;
    if marking.whole {
      BooksConcat(marking.reports, nested, others, inside, done);
    } else {
      BooksOfMore(marking.reports, others, inside);
      assert rest == marking.reports;
    }
    BooksConcat(own, rest, multiset{node}, all, done);
    if !done {
      OwnReportsOnly(step, prefix, i, top, rest);
      FailedAfterwards(own + rest, node, multiset(StepNodes(step, path, top)));
    }
  }

  /** A condition from its start to its end, given the state just before it is reported running. */
  lemma {:induction false} ConditionKeepsBooks(w: World, step: Step, prefix: seq<nat>, i: nat, top: bool, st: State)
    returns (added: seq<Report>)
    requires step.Condition? && UniqueStep(step)
    ensures var node := NodeAt(step, prefix + [i], top);
            var (o, st') := RunCondition(w, step, node, Reported(st, node, Running));
            && (if o.Done? then st'.reports else st'.reports + [Report(node, Failed)]) == st.reports + added
            && Books(added, multiset(StepNodes(step, prefix + [i], top)), o.Done?)
    decreases step, 0
  {
    hide Books, UniqueStep, Selection, NodeAt, SkipBranches, StepNodes, RunSteps, RunStep, Nodes;
    var path := prefix + [i];
    var node := NodeAt(step, path, top);
    var (r, chosen) := Selection(w, step, Reported(st, node, Running));
    if r.Value? {
      var k := r.v;
      var marking := SkipBranches(w, step.branches, path, 0, k);
      var skipped := Reported(chosen, node, Success).(reports := chosen.reports + [Report(node, Success)] + marking.reports);
      StepBranchesAreUnique(step, k);
      var nested, done := [], false;
      if marking.whole {
        nested := StepsKeepBooks(w, step.branches[k].steps, path + [k], 0, false, skipped);
        done := RunSteps(w, step.branches[k].steps, path + [k], 0, false, skipped).0.Done?;
      }
      BranchKeepsBooks(w, step, prefix, i, top, k, nested, done);
      added := AroundBranch(node, marking.reports, nested, done);
      Chain(st.reports, Report(node, Running), Report(node, Success), marking.reports, nested);
      ChainTwo(st.reports, [Report(node, Running), Report(node, Success)] + (marking.reports + nested), [Report(node, Failed)]);
    } else {
      added := [Report(node, Running), Report(node, Failed)];
      StartedAndEnded(node, Failed);
      ConditionNodeFirst(step, path, top);
      BooksOfMore(added, multiset{node}, multiset(BranchNodes(step.branches, path, 0)));
      ChainTwo(st.reports, [Report(node, Running)], [Report(node, Failed)]);
    }
  }

  // ----- what the progress list shows -----

  lemma {:induction false} CountsWhatIsReported(reports: seq<Report>, k: nat)
    requires k < |reports|
    ensures Count(reports, reports[k].status, reports[k].node) > 0
    decreases reports
  {
    if k > 0 {
      CountsWhatIsReported(reports[1..], k - 1);
    }
  }

  lemma ReportsAreAboutNodes(reports: seq<Report>, nodes: seq<Node>, done: bool, k: nat)
    requires Books(reports, multiset(nodes), done) && k < |reports|
    ensures reports[k].node in nodes
  {
    var n := reports[k].node;
    CountsWhatIsReported(reports, k);
    assert Account(reports, n, multiset(nodes)[n], done);
    assert multiset(nodes)[n] > 0 by {
      match reports[k].status
      case Running =>
      case Success =>
      case Failed =>
      case Skipped =>
    }
  }

  /** After delivery an entry shows the last status reported for its node. */
  lemma {:induction false} EntriesShowLastStage(entries: seq<Entry>, nodes: seq<Node>, reports: seq<Report>, k: nat)
    requires Identifies(entries, nodes) && Separate(nodes) && Indexed(nodes, true) && k < |nodes|
    requires forall j :: 0 <= j < |reports| ==> reports[j].node in nodes
    ensures ResetEntry(Deliver(entries, reports)[k]) == EntryOf(nodes[k])
    ensures Deliver(entries, reports)[k].stage
            == if LastStage(reports, nodes[k]) == Pending then entries[k].stage else LastStage(reports, nodes[k])
    decreases |reports|
  {
    if reports != [] {
      var n := reports[0].node;
      var j :| 0 <= j < |nodes| && nodes[j] == n;
      ReportsLandOnTheirEntry(entries, nodes, j);
      var updated := Update(entries, reports[0]);
      assert updated == entries[j := entries[j].(stage := At(reports[0].status))];
      assert j != k ==> n != nodes[k];
      EntriesShowLastStage(updated, nodes, reports[1..], k);
      assert reports == [reports[0]] + reports[1..] && reports[0] == Report(n, reports[0].status);
      SingleCount(n, reports[0].status);
      LastStageConcat([reports[0]], reports[1..], nodes[k]);
      assert Deliver(entries, reports) == Deliver(updated, reports[1..]);
      assert LastStage([reports[0]], nodes[k]) == if j == k then At(reports[0].status) else Pending;
      assert updated[k].stage == if j == k then At(reports[0].status) else entries[k].stage;
    }
  }

  /** Executed and successful exactly once, or skipped exactly once; never both. */
  predicate ExactlyOnce(reports: seq<Report>, n: Node) {
    && Count(reports, Failed, n) == 0
    && Count(reports, Success, n) == Count(reports, Running, n)
    && Count(reports, Running, n) + Count(reports, Skipped, n) == 1
  }

  lemma {:induction false} SeparateCountsOnce(nodes: seq<Node>, k: nat)
    requires Separate(nodes) && k < |nodes|
    ensures multiset(nodes)[nodes[k]] == 1
    decreases nodes
  {
    var n := nodes[k];
    assert nodes == nodes[..k] + ([n] + nodes[k + 1..]);
    assert n !in nodes[..k] && n !in nodes[k + 1..];
    assert multiset(nodes) == multiset(nodes[..k]) + (multiset{n} + multiset(nodes[k + 1..]));
  }

  lemma RunKeepsBooks(g: Grammar, w: World, steps: seq<Step>, tick: nat)
    requires Checker.Accepts(g, steps)
    ensures var (o, st) := Run(w, steps, tick);
            Books(st.reports, multiset(AllNodes(steps)), o.Done?)
    ensures Separate(AllNodes(steps)) && Indexed(AllNodes(steps), true) && Describes(Listing(steps), AllNodes(steps))
    ensures Identifies(Listing(steps), AllNodes(steps))
  {
    StepsRegisterIds(g, steps, 0, Checker.EMPTY_SCOPE, {});
    if w.enters(tick) {
      var added := StepsKeepBooks(w, steps, [], 0, true, Initial(tick + 1));
      assert [] + added == added;
    }
    NodesAreSeparate(steps, [], 0, true);
    NodesAreIndexed(steps, [], 0, true);
    EntriesDescribeNodes(steps, [], 0, true);
  }

  lemma AccountOfOne(reports: seq<Report>, n: Node, done: bool)
    requires Account(reports, n, 1, done)
    ensures Count(reports, Running, n) + Count(reports, Skipped, n) <= 1
    ensures done ==> ExactlyOnce(reports, n)
    ensures done ==> LastStage(reports, n) == At(if Count(reports, Skipped, n) == 1 then Skipped else Success)
  {
    if done {
      match LastStage(reports, n)
      case Pending =>
      case At(Success) =>
      case At(Skipped) =>
      case _ =>
    }
  }

  lemma BooksOfSeparateNodes(entries: seq<Entry>, nodes: seq<Node>, reports: seq<Report>, done: bool, k: nat)
    requires Books(reports, multiset(nodes), done) && Separate(nodes) && Indexed(nodes, true) && k < |nodes|
    requires Identifies(entries, nodes) && entries[k].stage == Pending
    ensures var n, shown := nodes[k], Deliver(entries, reports)[k];
            && ResetEntry(shown) == EntryOf(n) && shown.stage == LastStage(reports, n) && shown.stage != At(Running)
            && Count(reports, Running, n) + Count(reports, Skipped, n) <= 1
            && (done ==>
                  && ExactlyOnce(reports, n)
                  && shown.stage == At(if Count(reports, Skipped, n) == 1 then Skipped else Success))
  {
    forall j | 0 <= j < |reports|
      ensures reports[j].node in nodes
    {
      ReportsAreAboutNodes(reports, nodes, done, j);
    }
    EntriesShowLastStage(entries, nodes, reports, k);
    SeparateCountsOnce(nodes, k);
    assert Account(reports, nodes[k], multiset(nodes)[nodes[k]], done);
    AccountOfOne(reports, nodes[k], done);
  }

  /**
   * Step accounting, whatever the outcome of the run of an accepted workflow: the progress list shows
   * for every node of the workflow, at any depth, the last status reported for that very node; no
   * node is started or skipped twice, or both; and none is left running. If the run succeeded, every
   * node was executed or skipped, exactly one of the two and exactly once, and that is what is shown.
   */
  lemma EveryStepIsAccounted(g: Grammar, w: World, steps: seq<Step>, tick: nat, k: nat)
    requires Checker.Accepts(g, steps) && k < |AllNodes(steps)|
    ensures var (o, st) := Run(w, steps, tick);
            var n, entries := AllNodes(steps)[k], Deliver(Listing(steps), st.reports);
            && |entries| == |AllNodes(steps)| && ResetEntry(entries[k]) == EntryOf(n)
            && entries[k].stage == LastStage(st.reports, n) && entries[k].stage != At(Running)
            && Count(st.reports, Running, n) + Count(st.reports, Skipped, n) <= 1
            && (o.Done? ==>
                  && ExactlyOnce(st.reports, n)
                  && entries[k].stage == At(if Count(st.reports, Skipped, n) == 1 then Skipped else Success))
  {
    var (o, st) := Run(w, steps, tick);
    RunKeepsBooks(g, w, steps, tick);
    BooksOfSeparateNodes(Listing(steps), AllNodes(steps), st.reports, o.Done?, k);
  }

  /** Every report of a run reaches an entry, and it is the entry of the step that sent it. */
  lemma NoReportIsLost(g: Grammar, w: World, steps: seq<Step>, tick: nat, j: nat)
    requires Checker.Accepts(g, steps) && j < |Run(w, steps, tick).1.reports|
    ensures var node := Run(w, steps, tick).1.reports[j].node;
            var k := Target(Listing(steps), node);
            |Listing(steps)| == |AllNodes(steps)| && k < |Listing(steps)| && AllNodes(steps)[k] == node
  {
    var (o, st) := Run(w, steps, tick);
    var nodes := AllNodes(steps);
    RunKeepsBooks(g, w, steps, tick);
    ReportsAreAboutNodes(st.reports, nodes, o.Done?, j);
    var k :| 0 <= k < |nodes| && nodes[k] == st.reports[j].node;
    ReportsLandOnTheirEntry(Listing(steps), nodes, k);
  }

  /**
   * Finalisation leaves no entry pending or running, whatever happened before it; and after a
   * successful run of an accepted workflow there is nothing left for it to change.
   */
  lemma FinalisationSettles(g: Grammar, w: World, steps: seq<Step>, tick: nat, k: nat)
    requires Checker.Accepts(g, steps) && k < |AllNodes(steps)|
    ensures forall e, success :: FinalEntry(e, success).stage != Pending && FinalEntry(e, success).stage != At(Running)
    ensures var (o, st) := Run(w, steps, tick);
            var entries := Deliver(Listing(steps), st.reports);
            o.Done? ==> k < |entries| && FinalEntry(entries[k], true) == entries[k]
  {
    EveryStepIsAccounted(g, w, steps, tick, k);
  }
}
