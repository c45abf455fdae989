/**
 * Data-source soundness: in any run of an accepted workflow, whatever branches are taken and
 * whatever the outside world answers, an extraction finds the data source it names.
 *
 * One pass of the checker makes node ids unique; only therefore may the other pass merge the
 * branches of a condition by reading the kind of a source off the first branch.
 */
module SourceSoundness {
  import opened Wrappers
  import opened Workflow
  import opened Checker
  import opened Interpreter

  // ----- node ids are unique -----

  predicate Unique(steps: seq<Step>)
    decreases steps, 0
  {
    steps == [] || (UniqueStep(steps[0]) && StepIds(steps[0]) !! Ids(steps[1..]) && Unique(steps[1..]))
  }

  predicate UniqueStep(step: Step)
    decreases step, 1
  {
    step.Condition? ==> IdSet(step.nodeId) !! BranchIds(step.branches) && UniqueBranches(step.branches)
  }

  predicate UniqueBranches(branches: seq<Branch>)
    decreases branches, 0
  {
    branches == [] ||
    (Unique(branches[0].steps) && Ids(branches[0].steps) !! BranchIds(branches[1..]) && UniqueBranches(branches[1..]))
  }

  /** The check of a sequence registers exactly its ids, all of them new and distinct. */
  lemma {:induction false} StepsRegisterIds(g: Grammar, steps: seq<Step>, depth: nat, s: Scope, ids: set<string>)
    requires CheckSteps(g, steps, depth, s, ids).Some?
    ensures CheckSteps(g, steps, depth, s, ids).value.ids == ids + Ids(steps)
    ensures Ids(steps) !! ids && Unique(steps) && "" !in Ids(steps)
    decreases steps, 0
  {
    if steps != [] {
      StepRegistersIds(g, steps[0], depth, s, ids);
      var c := CheckStep(g, steps[0], depth, s, ids).value;
      StepsRegisterIds(g, steps[1..], depth, c.scope, c.ids);
    }
  }

  lemma {:induction false} StepRegistersIds(g: Grammar, step: Step, depth: nat, s: Scope, ids: set<string>)
    requires CheckStep(g, step, depth, s, ids).Some?
    ensures CheckStep(g, step, depth, s, ids).value.ids == ids + StepIds(step)
    ensures StepIds(step) !! ids && UniqueStep(step) && "" !in StepIds(step)
    decreases step, 1
  {
    if step.Condition? {
      var ids' := CheckNodeId(step.nodeId, ids).value;
      if step.version2 {
        var declared := Declare(g, step.extracts, map[], s.possible).value;
        BranchesRegisterIds(g, step.branches, 0, |step.branches|, depth + 1,
                            Scope(s.definite + declared, s.possible + declared, s.hasWait), ids');
      } else {
        LegacyBranchesRegisterIds(g, step.branches, depth + 1, ids');
      }
    }
  }

  lemma {:induction false} BranchesRegisterIds(g: Grammar, branches: seq<Branch>, index: nat, count: nat, depth: nat,
                                               s: Scope, ids: set<string>)
    requires CheckBranches(g, branches, index, count, depth, s, ids).Some?
    ensures CheckBranches(g, branches, index, count, depth, s, ids).value.1 == ids + BranchIds(branches)
    ensures BranchIds(branches) !! ids && UniqueBranches(branches) && "" !in BranchIds(branches)
    decreases branches, 0
  {
    if branches != [] {
      StepsRegisterIds(g, branches[0].steps, depth, s, ids);
      var c := CheckSteps(g, branches[0].steps, depth, s, ids).value;
      BranchesRegisterIds(g, branches[1..], index + 1, count, depth, s, c.ids);
    }
  }

  lemma {:induction false} LegacyBranchesRegisterIds(g: Grammar, branches: seq<Branch>, depth: nat, ids: set<string>)
    requires CheckLegacyBranches(g, branches, depth, ids).Some?
    ensures CheckLegacyBranches(g, branches, depth, ids).value == ids + BranchIds(branches)
    ensures BranchIds(branches) !! ids && UniqueBranches(branches) && "" !in BranchIds(branches)
    decreases branches, 0
  {
    if branches != [] {
      var empty := Scope(map[], map[], true);
      StepsRegisterIds(g, branches[0].steps, depth, empty, ids);
      LegacyBranchesRegisterIds(g, branches[1..], depth, CheckSteps(g, branches[0].steps, depth, empty, ids).value.ids);
    }
  }

  // ----- what the source pass changes -----

  /** `r` arises from `s` by filling ids of `ids` and forgetting others. */
  ghost predicate Frames(s: Sources, r: Sources, ids: set<string>) {
    && r.nodes.Keys <= s.nodes.Keys + ids
    && forall id :: id in s.nodes && id in r.nodes && id !in ids ==> r.nodes[id] == s.nodes[id]
  }

  lemma {:induction false} SourcesFrame(steps: seq<Step>, s: Sources)
    requires CheckSources(steps, s).Some?
    ensures Frames(s, CheckSources(steps, s).value, Ids(steps))
    decreases steps, 0
  {
    if steps != [] {
      StepSourcesFrame(steps[0], s);
      var s' := CheckStepSources(steps[0], s).value;
      SourcesFrame(steps[1..], s');
    }
  }

  lemma {:induction false} StepSourcesFrame(step: Step, s: Sources)
    requires CheckStepSources(step, s).Some?
    ensures Frames(s, CheckStepSources(step, s).value, StepIds(step))
    decreases step, 1
  {
    if step.Condition? {
      var results := CheckBranchSources(step.branches, s).value;
      BranchSourcesFrame(step.branches, s, 0);
      CommonIn(results, 0);
      assert Ids(step.branches[0].steps) <= StepIds(step);
    }
  }

  lemma {:induction false} BranchSourcesFrame(branches: seq<Branch>, s: Sources, k: nat)
    requires CheckBranchSources(branches, s).Some? && k < |branches|
    ensures CheckSources(branches[k].steps, s) == Some(CheckBranchSources(branches, s).value[k])
    ensures Frames(s, CheckBranchSources(branches, s).value[k], Ids(branches[k].steps))
    decreases branches, 0
  {
    if k == 0 {
      SourcesFrame(branches[0].steps, s);
    } else {
      BranchSourcesFrame(branches[1..], s, k - 1);
    }
  }

  lemma {:induction false} BranchesAreUnique(branches: seq<Branch>, k: nat)
    requires UniqueBranches(branches) && k < |branches|
    ensures Unique(branches[k].steps) && Ids(branches[k].steps) <= BranchIds(branches)
    ensures k > 0 ==> Ids(branches[0].steps) !! Ids(branches[k].steps)
  {
    if k > 0 {
      BranchesAreUnique(branches[1..], k - 1);
    }
  }

  lemma StepBranchesAreUnique(step: Step, k: nat)
    requires step.Condition? && UniqueStep(step) && k < |step.branches|
    ensures Unique(step.branches[k].steps)
  {
    BranchesAreUnique(step.branches, k);
  }

  /**
   * Merging is sound because ids are unique: a source common to all branches has, in every branch,
   * the kind it has in the first one.
   */
  lemma {:induction false} CommonKindIsUniform(branches: seq<Branch>, s: Sources, k: nat, id: string)
    requires CheckBranchSources(branches, s).Some? && k < |branches|
    requires UniqueBranches(branches) && s.nodes.Keys !! BranchIds(branches)
    requires id in CommonNodes(CheckBranchSources(branches, s).value)
    ensures var results := CheckBranchSources(branches, s).value;
            id in results[0].nodes && id in results[k].nodes && results[0].nodes[id] == results[k].nodes[id]
  {
    var results := CheckBranchSources(branches, s).value;
    CommonIn(results, 0);
    CommonIn(results, k);
    BranchSourcesFrame(branches, s, 0);
    BranchSourcesFrame(branches, s, k);
    BranchesAreUnique(branches, 0);
    BranchesAreUnique(branches, k);
  }

  // ----- runs -----

  /** Every source the checker counts on has been stored. */
  ghost predicate Stored(s: Sources, st: State) {
    && (forall id :: id in s.nodes && s.nodes[id] == HttpKind ==> id in st.responses)
    && (forall id :: id in s.nodes && s.nodes[id] == WaitKind ==> id in st.waits)
    && (HttpKind in s.kinds ==> st.http.Some?)
    && (WaitKind in s.kinds ==> st.lastText.Some?)
  }

  predicate SourceError(o: Outcome) { o.Stopped? && (o.e.SourceMissing? || o.e.NothingToExtract?) }

  /** Everything stored stays stored. */
  ghost predicate Keeps(st: State, st': State) {
    && st.responses.Keys <= st'.responses.Keys && st.waits.Keys <= st'.waits.Keys
    && (st.http.Some? ==> st'.http.Some?) && (st.lastText.Some? ==> st'.lastText.Some?)
  }

  lemma WaitStores(w: World, step: Step, node: Node, st: State, s: Sources)
    requires step.Wait? && Stored(s, st)
    requires node.id == (if step.nodeId.Some? && step.nodeId.value != "" then step.nodeId else None)
    ensures var (o, st') := RunWait(w, step, node, st);
            !SourceError(o) && (o.Done? ==> Stored(Filled(s, step.nodeId, WaitKind), st'))
  {
  }

  lemma HttpStores(w: World, step: Step, node: Node, st: State, s: Sources)
    requires step.Http? && Stored(s, st)
    requires node.id == (if step.nodeId.Some? && step.nodeId.value != "" then step.nodeId else None)
    ensures var (o, st') := RunHttp(w, step, node, st);
            !SourceError(o) && (o.Done? ==> Stored(Filled(s, step.nodeId, HttpKind), st'))
  {
    hide Renders, RendersAll;
  }

  lemma KeepsStored(s: Sources, st: State, st': State)
    requires Stored(s, st) && Keeps(st, st')
    ensures Stored(s, st')
  {
  }

  lemma PlainStepFindsSource(w: World, step: Step, node: Node, st: State, s: Sources)
    requires !step.Condition? && CheckStepSources(step, s).Some? && Stored(s, st)
    requires node.id == (if step.nodeId.Some? && step.nodeId.value != "" then step.nodeId else None)
    ensures var (o, st') := RunPlain(w, step, node, st);
            !SourceError(o) && (o.Done? ==> Stored(CheckStepSources(step, s).value, st'))
  {
    match step
    case Wait(_, _, _) => WaitStores(w, step, node, st, s);
    case Http(_, _, _, _, _) => HttpStores(w, step, node, st, s);
    case Extract(_, _, _, _, _) =>
      KeepsStored(s, st, RunPlain(w, step, node, st).1);
    case Send(_, _) => KeepsStored(s, st, RunSend(w, step, st).1);
    case Click(_, _, _, _) => KeepsStored(s, st, RunClick(w, step, st).1);
  }

  lemma {:induction false} StepsFindSources(w: World, steps: seq<Step>, prefix: seq<nat>, i: nat, top: bool,
                                            st: State, s: Sources)
    requires CheckSources(steps, s).Some? && Unique(steps) && s.nodes.Keys !! Ids(steps) && Stored(s, st)
    ensures var (o, st') := RunSteps(w, steps, prefix, i, top, st);
            !SourceError(o) && (o.Done? ==> Stored(CheckSources(steps, s).value, st'))
    decreases steps, 0
  {
    if steps != [] {
      StepFindsSource(w, steps[0], prefix + [i], top, st, s);
      var (o, st') := RunStep(w, steps[0], prefix + [i], top, st);
      if o.Done? {
        var s' := CheckStepSources(steps[0], s).value;
        StepSourcesFrame(steps[0], s);
        StepsFindSources(w, steps[1..], prefix, i + 1, top, st', s');
      }
    }
  }

  lemma {:induction false} StepFindsSource(w: World, step: Step, path: seq<nat>, top: bool, st: State, s: Sources)
    requires CheckStepSources(step, s).Some? && UniqueStep(step) && s.nodes.Keys !! StepIds(step) && Stored(s, st)
    ensures var (o, st') := RunStep(w, step, path, top, st);
            !SourceError(o) && (o.Done? ==> Stored(CheckStepSources(step, s).value, st'))
    decreases step, 1
  {
    hide RunPlain, RunCondition;
    var node := NodeAt(step, path, top);
    if WellFormed(w, step) && !w.cancelled(st.tick) {
      var started := Reported(Ticked(st), node, Running);
      KeepsStored(s, st, started);
      if step.Condition? {
        ConditionFindsSources(w, step, node, started, s);
      } else {
        PlainStepFindsSource(w, step, node, started, s);
        var (o, st') := RunPlain(w, step, node, started);
        if o.Done? {
          KeepsStored(CheckStepSources(step, s).value, st', Reported(st', node, Success));
        }
      }
    }
  }

  lemma {:induction false} ConditionFindsSources(w: World, step: Step, node: Node, st: State, s: Sources)
    requires step.Condition? && CheckStepSources(step, s).Some? && UniqueStep(step)
    requires s.nodes.Keys !! StepIds(step) && Stored(s, st)
    ensures var (o, st') := RunCondition(w, step, node, st);
            !SourceError(o) && (o.Done? ==> Stored(CheckStepSources(step, s).value, st'))
    decreases step, 0
  {
    var (r, chosen) := Selection(w, step, st);
    if r.Value? {
      var k, results := r.v, CheckBranchSources(step.branches, s).value;
      BranchSourcesFrame(step.branches, s, k);
      BranchesAreUnique(step.branches, k);
      var selected, marking := Reported(chosen, node, Success), SkipBranches(w, step.branches, node.path, 0, k);
      var skipped := selected.(reports := selected.reports + marking.reports);
      assert Stored(s, skipped);
      if marking.whole {
        StepsFindSources(w, step.branches[k].steps, node.path + [k], 0, false, skipped, s);
        MergedIsStored(step.branches, s, k, RunSteps(w, step.branches[k].steps, node.path + [k], 0, false, skipped).1);
      }
    }
  }

  lemma MergedIsStored(branches: seq<Branch>, s: Sources, k: nat, st: State)
    requires CheckBranchSources(branches, s).Some? && k < |branches|
    requires UniqueBranches(branches) && s.nodes.Keys !! BranchIds(branches)
    ensures var results := CheckBranchSources(branches, s).value;
            Stored(results[k], st) ==> Stored(Common(results), st)
  {
    var results := CheckBranchSources(branches, s).value;
    var common := Common(results);
    forall id | id in common.nodes
      ensures id in results[k].nodes && common.nodes[id] == results[k].nodes[id]
    {
      CommonKindIsUniform(branches, s, k, id);
    }
    CommonIn(results, k);
  }

  /**
   * Data-source soundness: no run of an accepted workflow, legacy conditions included, ever fails
   * because an extraction's data source has not been stored.
   */
  lemma SourcesAreAlwaysFound(g: Grammar, w: World, steps: seq<Step>, tick: nat)
    requires Accepts(g, steps)
    ensures !SourceError(Run(w, steps, tick).0)
  {
    StepsRegisterIds(g, steps, 0, EMPTY_SCOPE, {});
    StepsFindSources(w, steps, [], 0, true, Initial(tick + 1), NO_SOURCES);
  }

  // ----- why uniqueness is needed -----

  function SharedRequest(): Step { Http(Some("a"), "u", [], None, 30) }

  function SharedWait(): Step { Wait(Some("a"), 60, []) }

  function SharedChoice(rule: Rule): Step {
    Condition(Some("c"), true, false, [],
              [Branch(If, true, [rule], [SharedRequest()]), Branch(Else, true, [], [SharedWait()])])
  }

  lemma SharedSources(rule: Rule)
    ensures CheckStepSources(SharedChoice(rule), NO_SOURCES) == Some(Sources(map["a" := HttpKind], {}))
    ensures !UniqueStep(SharedChoice(rule))
  {
    var branches := SharedChoice(rule).branches;
    var first, second := Filled(NO_SOURCES, Some("a"), HttpKind), Filled(NO_SOURCES, Some("a"), WaitKind);
    assert branches[0].steps[1..] == [] && branches[1].steps[1..] == [];
    assert CheckSources(branches[0].steps, NO_SOURCES) == Some(first);
    assert CheckSources(branches[1].steps, NO_SOURCES) == Some(second);
    assert branches[1..] == [branches[1]] && branches[1..][1..] == [];
    assert CheckBranchSources([branches[1]], NO_SOURCES) == Some([second]) by {
      assert [branches[1]][1..] == [] && [second] + [] == [second];
    }
    var results := CheckBranchSources(branches, NO_SOURCES).value;
    assert results == [first, second] && results[1..] == [second];
    assert CommonNodes(results) == {"a"} && CommonKinds(results) == {};
    assert Common(results).nodes == map["a" := HttpKind] by {
      CommonIn(results, 0);
      assert first.nodes == map["a" := HttpKind];
    }
    assert "a" in StepIds(SharedRequest()) && "a" in StepIds(SharedWait());
    assert "a" in Ids(branches[0].steps) && "a" in BranchIds(branches[1..]);
  }

  lemma SharedSelection(w: World, rule: Rule, st: State)
    requires st.vars == map[]
    ensures var (r, st') := Selection(w, SharedChoice(rule), st);
            r == Value(1) && st'.responses == st.responses && st'.vars == map[]
  {
    var branches, s := SharedChoice(rule).branches, ScratchOf(st);
    assert [rule][1..] == [];
    var (m, s1) := EvaluateRules(w, [rule], true, true, false, s);
    assert m == Value(false) && s1.vars == s.vars;
    assert branches[1..][0] == branches[1];
    assert SelectFrom(w, branches[1..], 1, false, s1) == (Value(1), s1);
    assert SelectFrom(w, branches, 0, false, s) == (Value(1), s1);
  }

  lemma SharedMarking(w: World, rule: Rule, path: seq<nat>)
    ensures SkipBranches(w, SharedChoice(rule).branches, path, 0, 1).whole
  {
    var branches := SharedChoice(rule).branches;
    assert branches[0].steps == [SharedRequest()] && [SharedRequest()][1..] == [];
    assert SkipSteps(w, [SharedRequest()], path + [0], 0).whole;
    assert branches[1..] == [branches[1]] && [branches[1]][1..] == [];
    assert SkipBranches(w, [branches[1]], path, 1, 1).whole;
  }

  lemma SharedRun(w: World, rule: Rule, node: Node, st: State)
    requires st.vars == map[]
    requires forall n :: !w.cancelled(n)
    requires forall n :: w.reply(n) == Received("hi", map[])
    ensures var (o, st') := RunCondition(w, SharedChoice(rule), node, st); o == Done && st'.responses == st.responses
  {
    var choice := SharedChoice(rule);
    SharedSelection(w, rule, st);
    var chosen := Selection(w, choice, st).1;
    var selected, marking := Reported(chosen, node, Success), SkipBranches(w, choice.branches, node.path, 0, 1);
    var skipped := selected.(reports := selected.reports + marking.reports);
    SharedMarking(w, rule, node.path);
    var steps := choice.branches[1].steps;
    assert steps == [SharedWait()] && steps[1..] == [];
    var (o, st') := RunStep(w, SharedWait(), node.path + [1] + [0], false, skipped);
    assert o == Done && st'.responses == st.responses;
    assert RunSteps(w, steps, node.path + [1], 0, false, skipped) == (o, st');
  }

  /**
   * Without unique ids the source pass alone would be unsound: here both branches name their step
   * `a`, the pass reads the kind off the first branch, and a run through the second one fails.
   */
  lemma SharedIdsWouldBreakTheMerge(w: World, rule: Rule, e: Extraction, tick: nat)
    requires w.enters(tick) && forall n :: !w.cancelled(n)
    requires forall n :: w.reply(n) == Received("hi", map[])
    ensures var steps := [SharedChoice(rule), Extract(None, HttpBody, "a", "", e)];
            && CheckSources(steps, NO_SOURCES).Some? && !Unique(steps)
            && Run(w, steps, tick).0 == Stopped(SourceMissing("a"))
  {
    var choice, extract := SharedChoice(rule), Extract(None, HttpBody, "a", "", e);
    var steps := [choice, extract];
    SharedSources(rule);
    assert steps[1..] == [extract] && [extract][1..] == [];
    assert CheckSources([extract], Sources(map["a" := HttpKind], {})).Some?;
    var started := Reported(Ticked(Initial(tick + 1)), NodeAt(choice, [0], true), Running);
    SharedSelection(w, rule, started);
    assert [] + [0] == [0];
    var node := NodeAt(choice, [0], true);
    SharedRun(w, rule, node, started);
    var (o, st) := RunStep(w, choice, [] + [0], true, Initial(tick + 1));
    assert RunCondition(w, choice, node, started).0 == Done;
    assert o == Done && st.responses == map[];
    assert RunStep(w, extract, [] + [1], true, st).0 == Stopped(SourceMissing("a"));
    assert RunSteps(w, [extract], [], 1, true, st).0 == Stopped(SourceMissing("a"));
  }
}
