/**
 * Filling the messages of its groups into a workflow: it then runs as it does when it looks the
 * messages up, as long as they stay the same; and it is accepted exactly if it is with each message.
 */
module Substitution {
  import opened Wrappers
  import opened Workflow
  import opened Interpreter
  import opened MessageGroups
  import opened Checker

  /** The world answers lookups of these groups with these messages. */
  ghost predicate Provides(w: World, messages: map<string, seq<string>>) {
    forall n, id :: id in messages ==> w.groupMessages(n, id) == Some(messages[id])
  }

  lemma {:induction false} BranchesKeepTheirShape(messages: map<string, seq<string>>, branches: seq<Branch>)
    ensures var filled := SubstitutedBranches(messages, branches);
            && |filled| == |branches|
            && forall k :: 0 <= k < |branches| ==>
                 filled[k] == branches[k].(steps := Substituted(messages, branches[k].steps))
    decreases branches, 0
  {
    if branches != [] {
      BranchesKeepTheirShape(messages, branches[1..]);
    }
  }

  lemma NormalizationIsUnchanged(w: World, messages: map<string, seq<string>>, step: Step)
    ensures WellFormed(w, SubstitutedStep(messages, step)) <==> WellFormed(w, step)
  {
    if step.Condition? {
      BranchesKeepTheirShape(messages, step.branches);
      assert Heads(SubstitutedBranches(messages, step.branches)) == Heads(step.branches);
    }
  }

  lemma {:induction false} SelectionIsUnchanged(w: World, messages: map<string, seq<string>>, branches: seq<Branch>,
                                                index: nat, strict: bool, s: Scratch)
    ensures SelectFrom(w, SubstitutedBranches(messages, branches), index, strict, s)
            == SelectFrom(w, branches, index, strict, s)
    decreases branches
  {
    if branches != [] && !branches[0].kind.Else? {
      var filled := SubstitutedBranches(messages, branches);
      assert filled[1..] == SubstitutedBranches(messages, branches[1..]);
      var (r, s') := EvaluateRules(w, branches[0].rules, branches[0].all, branches[0].all, strict, s);
      if r == Value(false) {
        SelectionIsUnchanged(w, messages, branches[1..], index + 1, strict, s');
      }
    }
  }

  lemma {:induction false} SkipsAreUnchanged(w: World, messages: map<string, seq<string>>, steps: seq<Step>,
                                             prefix: seq<nat>, i: nat)
    ensures SkipSteps(w, Substituted(messages, steps), prefix, i) == SkipSteps(w, steps, prefix, i)
    decreases steps, 0
  {
    if steps != [] {
      var filled := Substituted(messages, steps);
      assert filled[1..] == Substituted(messages, steps[1..]);
      StepSkipsAreUnchanged(w, messages, steps[0], prefix + [i]);
      SkipsAreUnchanged(w, messages, steps[1..], prefix, i + 1);
    }
  }

  lemma {:induction false} StepSkipsAreUnchanged(w: World, messages: map<string, seq<string>>, step: Step, path: seq<nat>)
    ensures SkipStep(w, SubstitutedStep(messages, step), path) == SkipStep(w, step, path)
    decreases step, 1
  {
    NormalizationIsUnchanged(w, messages, step);
    if step.Condition? {
      BranchesKeepTheirShape(messages, step.branches);
      BranchSkipsAreUnchanged(w, messages, step.branches, path, 0, |step.branches|);
    }
  }

  lemma {:induction false} BranchSkipsAreUnchanged(w: World, messages: map<string, seq<string>>, branches: seq<Branch>,
                                                   path: seq<nat>, b: nat, keep: nat)
    ensures SkipBranches(w, SubstitutedBranches(messages, branches), path, b, keep)
            == SkipBranches(w, branches, path, b, keep)
    decreases branches, 0
  {
    if branches != [] {
      var filled := SubstitutedBranches(messages, branches);
      assert filled[1..] == SubstitutedBranches(messages, branches[1..]);
      SkipsAreUnchanged(w, messages, branches[0].steps, path + [b], 0);
      BranchSkipsAreUnchanged(w, messages, branches[1..], path, b + 1, keep);
    }
  }

  lemma {:induction false} StepsRunAlike(w: World, messages: map<string, seq<string>>, steps: seq<Step>,
                                         prefix: seq<nat>, i: nat, top: bool, st: State)
    requires Provides(w, messages)
    ensures RunSteps(w, Substituted(messages, steps), prefix, i, top, st) == RunSteps(w, steps, prefix, i, top, st)
    decreases steps, 0
  {
    if steps != [] {
      var filled := Substituted(messages, steps);
      assert filled[1..] == Substituted(messages, steps[1..]);
      StepRunsAlike(w, messages, steps[0], prefix + [i], top, st);
      var (o, st') := RunStep(w, steps[0], prefix + [i], top, st);
      StepsRunAlike(w, messages, steps[1..], prefix, i + 1, top, st');
    }
  }

  lemma {:induction false} StepRunsAlike(w: World, messages: map<string, seq<string>>, step: Step, path: seq<nat>,
                                         top: bool, st: State)
    requires Provides(w, messages)
    ensures RunStep(w, SubstitutedStep(messages, step), path, top, st) == RunStep(w, step, path, top, st)
    decreases step, 1
  {
    var node := NodeAt(step, path, top);
    var filled := SubstitutedStep(messages, step);
    assert NodeAt(filled, path, top) == node;
    NormalizationIsUnchanged(w, messages, step);
    if WellFormed(w, step) && !w.cancelled(st.tick) {
      var started := Reported(Ticked(st), node, Running);
      if step.Condition? {
        ConditionRunsAlike(w, messages, step, node, started);
      } else {
        assert RunPlain(w, filled, node, started) == RunPlain(w, step, node, started);
      }
    }
  }

  lemma {:induction false} ConditionRunsAlike(w: World, messages: map<string, seq<string>>, step: Step, node: Node, st: State)
    requires step.Condition? && Provides(w, messages)
    ensures RunCondition(w, SubstitutedStep(messages, step), node, st) == RunCondition(w, step, node, st)
    decreases step, 0
  {
    var filled := SubstitutedStep(messages, step);
    BranchesKeepTheirShape(messages, step.branches);
    var extracted := ExtractAll(w, step.extracts, step.strict, Input(st.lastText, st.lastMetadata), ScratchOf(st));
    SelectionIsUnchanged(w, messages, step.branches, 0, step.strict, extracted.1);
    assert Selection(w, filled, st) == Selection(w, step, st);
    var (r, st') := Selection(w, step, st);
    if r.Value? {
      var k := r.v;
      var selected, marking := Reported(st', node, Success), SkipBranches(w, step.branches, node.path, 0, k);
      BranchSkipsAreUnchanged(w, messages, step.branches, node.path, 0, k);
      var skipped := selected.(reports := selected.reports + marking.reports);
      StepsRunAlike(w, messages, step.branches[k].steps, node.path + [k], 0, false, skipped);
    }
  }

  /**
   * A run that reads its groups live is, step by step and report by report, the run of the workflow
   * with the groups' messages filled in.
   */
  lemma SubstitutionKeepsRuns(w: World, messages: map<string, seq<string>>, steps: seq<Step>, tick: nat)
    requires Provides(w, messages)
    ensures Run(w, Substituted(messages, steps), tick) == Run(w, steps, tick)
  {
    StepsRunAlike(w, messages, steps, [], 0, true, Initial(tick + 1));
  }

  // ----- acceptance, message by message -----

  /** Accepted with both, for the same result. */
  function Both<T>(x: Option<T>, y: Option<T>): Option<T> { if x.Some? && y.Some? then x else None }

  ghost predicate SplitsInto<T(!new)>(whole: Option<T>, x: Option<T>, y: Option<T>) {
    whole == Both(x, y) && (x.Some? && y.Some? ==> x == y)
  }

  /** A group with the messages `a + b` is as acceptable as it is with `a` and with `b`. */
  lemma {:induction false} StepsSplit(g: Grammar, m: map<string, seq<string>>, id: string, a: seq<string>, b: seq<string>,
                                      steps: seq<Step>, depth: nat, s: Scope, ids: set<string>)
    requires a != [] && b != []
    ensures SplitsInto(CheckSteps(g, Substituted(m[id := a + b], steps), depth, s, ids),
                       CheckSteps(g, Substituted(m[id := a], steps), depth, s, ids),
                       CheckSteps(g, Substituted(m[id := b], steps), depth, s, ids))
    decreases steps, 0
  {
    hide CheckStep, SubstitutedStep;
    if steps != [] {
      SubstitutedFirst(m[id := a + b], steps);
      SubstitutedFirst(m[id := a], steps);
      SubstitutedFirst(m[id := b], steps);
      StepSplits(g, m, id, a, b, steps[0], depth, s, ids);
      var c := CheckStep(g, SubstitutedStep(m[id := a + b], steps[0]), depth, s, ids);
      if c.Some? {
        StepsSplit(g, m, id, a, b, steps[1..], depth, c.value.scope, c.value.ids);
      }
    }
  }

  lemma SubstitutedFirst(m: map<string, seq<string>>, steps: seq<Step>)
    requires steps != []
    ensures var filled := Substituted(m, steps);
            filled != [] && filled[0] == SubstitutedStep(m, steps[0]) && filled[1..] == Substituted(m, steps[1..])
  {
    hide SubstitutedStep;
  }

  lemma {:induction false} StepSplits(g: Grammar, m: map<string, seq<string>>, id: string, a: seq<string>, b: seq<string>,
                                      step: Step, depth: nat, s: Scope, ids: set<string>)
    requires a != [] && b != []
    ensures SplitsInto(CheckStep(g, SubstitutedStep(m[id := a + b], step), depth, s, ids),
                       CheckStep(g, SubstitutedStep(m[id := a], step), depth, s, ids),
                       CheckStep(g, SubstitutedStep(m[id := b], step), depth, s, ids))
    decreases step, 1
  {
    if step.Condition? {
      if step.version2 {
        Version2Splits(g, m, id, a, b, step, depth + 1, s, ids);
      } else {
        LegacySplits(g, m, id, a, b, step, depth + 1, s, ids);
      }
    } else if step == Send(step.nodeId, Group(id)) {
      TextsSplit(g, a, b, s.possible);
    }
  }

  lemma TextsSplit(g: Grammar, a: seq<string>, b: seq<string>, possible: Types)
    requires a != [] && b != []
    ensures forall node :: PlainStepOk(g, Send(node, Manual(a + b)), possible)
                           <==> && PlainStepOk(g, Send(node, Manual(a)), possible)
                                && PlainStepOk(g, Send(node, Manual(b)), possible)
  {
    var c := a + b;
    assert forall k :: 0 <= k < |a| ==> c[k] == a[k];
    assert forall k :: 0 <= k < |b| ==> c[|a| + k] == b[k];
    assert forall k :: 0 <= k < |c| ==> c[k] == if k < |a| then a[k] else b[k - |a|];
  }

  lemma {:induction false} Version2Splits(g: Grammar, m: map<string, seq<string>>, id: string, a: seq<string>,
                                          b: seq<string>, step: Step, depth: nat, s: Scope, ids: set<string>)
    requires a != [] && b != [] && step.Condition?
    ensures SplitsInto(CheckVersion2(g, SubstitutedStep(m[id := a + b], step), depth, s, ids),
                       CheckVersion2(g, SubstitutedStep(m[id := a], step), depth, s, ids),
                       CheckVersion2(g, SubstitutedStep(m[id := b], step), depth, s, ids))
    decreases step, 0
  {
    hide SubstitutedBranches, CheckBranches, Declare, Merge;
    BranchesKeepTheirShape(m[id := a + b], step.branches);
    BranchesKeepTheirShape(m[id := a], step.branches);
    BranchesKeepTheirShape(m[id := b], step.branches);
    var ids', declared := CheckNodeId(step.nodeId, ids), Declare(g, step.extracts, map[], s.possible);
    if ids'.Some? && declared.Some? {
      var inner := Scope(s.definite + declared.value, s.possible + declared.value, s.hasWait);
      BranchesSplit(g, m, id, a, b, step.branches, 0, |step.branches|, depth, inner, ids'.value);
    }
  }

  lemma {:induction false} LegacySplits(g: Grammar, m: map<string, seq<string>>, id: string, a: seq<string>,
                                        b: seq<string>, step: Step, depth: nat, s: Scope, ids: set<string>)
    requires a != [] && b != [] && step.Condition?
    ensures SplitsInto(CheckLegacy(g, SubstitutedStep(m[id := a + b], step), depth, s, ids),
                       CheckLegacy(g, SubstitutedStep(m[id := a], step), depth, s, ids),
                       CheckLegacy(g, SubstitutedStep(m[id := b], step), depth, s, ids))
    decreases step, 0
  {
    hide CheckLegacy, SubstitutedStep, SubstitutedBranches, CheckLegacyBranches, CheckNodeId, LegacyFrame;
    LegacyFollowsBranches(g, m[id := a + b], step, depth, s, ids);
    LegacyFollowsBranches(g, m[id := a], step, depth, s, ids);
    LegacyFollowsBranches(g, m[id := b], step, depth, s, ids);
    if LegacyFrame(step, ids) {
      LegacyBranchesSplit(g, m, id, a, b, step.branches, depth, CheckNodeId(step.nodeId, ids).value);
    }
  }

  /** What the checker asks of a legacy condition apart from its branches. */
  predicate LegacyFrame(step: Step, ids: set<string>)
    requires step.Condition?
    ensures LegacyFrame(step, ids) ==> CheckNodeId(step.nodeId, ids).Some?
  {
    && CheckNodeId(step.nodeId, ids) != None && 2 <= |step.branches| <= 20
    && step.branches[0].kind.If? && step.branches[|step.branches| - 1].kind.Else?
  }

  lemma LegacyFollowsBranches(g: Grammar, m: map<string, seq<string>>, step: Step, depth: nat, s: Scope, ids: set<string>)
    requires step.Condition?
    ensures CheckLegacy(g, SubstitutedStep(m, step), depth, s, ids)
            == if !LegacyFrame(step, ids) then None
               else
                 var filled, known := SubstitutedBranches(m, step.branches), CheckNodeId(step.nodeId, ids).value;
                 var r := CheckLegacyBranches(g, filled, depth, known);
                 if r == None then None else Some(Checked(s, r.value))
  {
    hide SubstitutedBranches, CheckLegacyBranches;
    BranchesKeepTheirShape(m, step.branches);
  }

  lemma {:induction false} BranchesSplit(g: Grammar, m: map<string, seq<string>>, id: string, a: seq<string>, b: seq<string>,
                                         branches: seq<Branch>, index: nat, count: nat, depth: nat, s: Scope, ids: set<string>)
    requires a != [] && b != []
    ensures SplitsInto(CheckBranches(g, SubstitutedBranches(m[id := a + b], branches), index, count, depth, s, ids),
                       CheckBranches(g, SubstitutedBranches(m[id := a], branches), index, count, depth, s, ids),
                       CheckBranches(g, SubstitutedBranches(m[id := b], branches), index, count, depth, s, ids))
    decreases branches, 0
  {
    hide CheckSteps, Substituted, BranchRulesOk;
    if branches != [] {
      SubstitutedFirstBranch(m[id := a + b], branches);
      SubstitutedFirstBranch(m[id := a], branches);
      SubstitutedFirstBranch(m[id := b], branches);
      RulesDecide(g, branches[0], m[id := a + b], s.possible);
      RulesDecide(g, branches[0], m[id := a], s.possible);
      RulesDecide(g, branches[0], m[id := b], s.possible);
      StepsSplit(g, m, id, a, b, branches[0].steps, depth, s, ids);
      var c := CheckSteps(g, Substituted(m[id := a + b], branches[0].steps), depth, s, ids);
      if c.Some? {
        BranchesSplit(g, m, id, a, b, branches[1..], index + 1, count, depth, s, c.value.ids);
      }
    }
  }

  lemma SubstitutedFirstBranch(m: map<string, seq<string>>, branches: seq<Branch>)
    requires branches != []
    ensures var filled := SubstitutedBranches(m, branches);
            && filled != [] && filled[0] == branches[0].(steps := Substituted(m, branches[0].steps))
            && filled[1..] == SubstitutedBranches(m, branches[1..])
  {
    hide Substituted;
  }

  lemma RulesDecide(g: Grammar, branch: Branch, m: map<string, seq<string>>, possible: Types)
    ensures BranchRulesOk(g, branch.(steps := Substituted(m, branch.steps)), possible) <==> BranchRulesOk(g, branch, possible)
  {
    hide Substituted;
  }

  lemma {:induction false} LegacyBranchesSplit(g: Grammar, m: map<string, seq<string>>, id: string, a: seq<string>,
                                               b: seq<string>, branches: seq<Branch>, depth: nat, ids: set<string>)
    requires a != [] && b != []
    ensures SplitsInto(CheckLegacyBranches(g, SubstitutedBranches(m[id := a + b], branches), depth, ids),
                       CheckLegacyBranches(g, SubstitutedBranches(m[id := a], branches), depth, ids),
                       CheckLegacyBranches(g, SubstitutedBranches(m[id := b], branches), depth, ids))
    decreases branches, 0
  {
    hide CheckSteps, Substituted;
    if branches != [] {
      SubstitutedFirstBranch(m[id := a + b], branches);
      SubstitutedFirstBranch(m[id := a], branches);
      SubstitutedFirstBranch(m[id := b], branches);
      var s := Scope(map[], map[], true);
      StepsSplit(g, m, id, a, b, branches[0].steps, depth, s, ids);
      var c := CheckSteps(g, Substituted(m[id := a + b], branches[0].steps), depth, s, ids);
      if c.Some? {
        LegacyBranchesSplit(g, m, id, a, b, branches[1..], depth, c.value.ids);
      }
    }
  }

  /** Sends are no data sources. */
  lemma {:induction false} SourcesIgnoreMessages(m: map<string, seq<string>>, steps: seq<Step>, s: Sources)
    ensures CheckSources(Substituted(m, steps), s) == CheckSources(steps, s)
    decreases steps, 0
  {
    if steps != [] {
      SubstitutedFirst(m, steps);
      if steps[0].Condition? {
        BranchSourcesIgnoreMessages(m, steps[0].branches, s);
        BranchesKeepTheirShape(m, steps[0].branches);
      }
      var s' := CheckStepSources(steps[0], s);
      if s'.Some? {
        SourcesIgnoreMessages(m, steps[1..], s'.value);
      }
    }
  }

  lemma {:induction false} BranchSourcesIgnoreMessages(m: map<string, seq<string>>, branches: seq<Branch>, s: Sources)
    ensures CheckBranchSources(SubstitutedBranches(m, branches), s) == CheckBranchSources(branches, s)
    decreases branches, 0
  {
    if branches != [] {
      SubstitutedFirstBranch(m, branches);
      SourcesIgnoreMessages(m, branches[0].steps, s);
      BranchSourcesIgnoreMessages(m, branches[1..], s);
    }
  }

  lemma AcceptanceSplits(g: Grammar, m: map<string, seq<string>>, id: string, a: seq<string>, b: seq<string>, steps: seq<Step>)
    requires a != [] && b != []
    ensures Accepts(g, Substituted(m[id := a + b], steps))
            <==> Accepts(g, Substituted(m[id := a], steps)) && Accepts(g, Substituted(m[id := b], steps))
  {
    hide CheckSteps, CheckSources;
    StepsSplit(g, m, id, a, b, steps, 0, EMPTY_SCOPE, {});
    SourcesIgnoreMessages(m[id := a + b], steps, NO_SOURCES);
    SourcesIgnoreMessages(m[id := a], steps, NO_SOURCES);
    SourcesIgnoreMessages(m[id := b], steps, NO_SOURCES);
  }

  /** The workflow is accepted with the messages of a group filled in exactly if it is with each of them alone. */
  lemma {:induction false} AcceptedMessageByMessage(g: Grammar, m: map<string, seq<string>>, id: string, texts: seq<string>,
                                                    steps: seq<Step>)
    requires texts != []
    ensures Accepts(g, Substituted(m[id := texts], steps))
            <==> forall k :: 0 <= k < |texts| ==> Accepts(g, Substituted(m[id := [texts[k]]], steps))
    decreases |texts|
  {
    hide Accepts, Substituted;
    var first, rest := [texts[0]], texts[1..];
    assert texts == first + rest;
    if rest == [] {
      assert texts == [texts[0]];
    } else {
      AcceptanceSplits(g, m, id, first, rest, steps);
      AcceptedMessageByMessage(g, m, id, rest, steps);
      assert forall k :: 1 <= k < |texts| ==> texts[k] == rest[k - 1];
      assert forall k :: 0 <= k < |rest| ==> rest[k] == texts[k + 1];
    }
  }

  /**
   * Nothing checks the workflows that use a group again when its messages change. A workflow that was
   * valid stays so exactly if it is acceptable with each of the new messages.
   */
  lemma EditedGroupStaysValid(g: Grammar, lib: Library, id: string, name: string, messages: seq<string>, revision: nat,
                              steps: seq<Step>)
    requires GroupsValid(g, lib.groups, steps) && id in GroupIds(steps) && messages != []
    requires UpdateGroup(lib, id, name, messages, revision).0 == None
    ensures var ids, groups := GroupIds(steps), UpdateGroup(lib, id, name, messages, revision).1.groups;
            GroupsValid(g, groups, steps)
            <==> forall k :: 0 <= k < |messages| ==>
                   Accepts(g, Substituted(MessagesOf(lib.groups, ids)[id := [messages[k]]], steps))
  {
    hide Accepts, Substituted, GroupIds;
    var ids, groups := GroupIds(steps), UpdateGroup(lib, id, name, messages, revision).1.groups;
    assert MessagesOf(groups, ids) == MessagesOf(lib.groups, ids)[id := messages];
    AcceptedMessageByMessage(g, MessagesOf(lib.groups, ids), id, messages, steps);
  }

  // ----- an edit that stops the next run -----

  function GroupSend(): seq<Step> { [Send(None, Group("g"))] }

  function Greeting(text: string): Library {
    Library(map["g" := GroupRow("greetings", [text], 1)], {"g"},
            [Task("t", Definition("hello", "me", GroupSend()), false, false, [GroupSend()])], {"me"})
  }

  lemma GreetingIsValid(g: Grammar, text: string)
    requires g.validText(text)
    ensures GroupIds(GroupSend()) == {"g"} && Accepts(g, GroupSend())
    ensures Live(Greeting(text).groups, "g") && Intact(g, Greeting(text))
    ensures GroupsValid(g, Greeting(text).groups, GroupSend()) <==> g.templateNames(text) == {}
  {
    var steps, groups := GroupSend(), Greeting(text).groups;
    assert steps[1..] == [] && {"g"} + {} == {"g"};
    assert GroupIds(steps) == {"g"};
    assert CheckStep(g, steps[0], 0, EMPTY_SCOPE, {}).Some?;
    assert CheckStepSources(steps[0], NO_SOURCES).Some?;
    var m := MessagesOf(groups, {"g"});
    assert m["g"] == [text];
    var filled := Substituted(m, steps);
    assert filled == [Send(None, Manual([text]))] && filled[1..] == [];
    assert CheckStepSources(filled[0], NO_SOURCES).Some?;
    assert CheckStep(g, filled[0], 0, EMPTY_SCOPE, {}).Some? <==> PlainStepOk(g, filled[0], map[]);
    var none: Types := map[];
    assert none.Keys == {} && [text][0] == text;
    assert TemplatesOk(g, [text], none) <==> TemplateOk(g, text, none);
    assert PlainStepOk(g, filled[0], none) <==> g.templateNames(text) <= {};
  }

  /** A published workflow is valid, and then a template that nothing sets is put into its group: no check refuses it. */
  lemma EditIsNotChecked(g: Grammar, text: string, name: string)
    requires g.validText("hi") && g.templateNames("hi") == {} && g.validText(text) && name in g.templateNames(text)
    ensures var before := Greeting("hi");
            var (error, after) := UpdateGroup(before, "g", "greetings", [text], 1);
            && Intact(g, before) && GroupsValid(g, before.groups, GroupSend())
            && error == None && Intact(g, after) && !GroupsValid(g, after.groups, GroupSend())
  {
    hide Accepts, Intact, Substituted, GroupIds;
    var before, edit := Greeting("hi"), ChangeGroup("g", "greetings", [text], 1);
    GreetingIsValid(g, "hi");
    GreetingIsValid(g, text);
    var after := UpdateGroup(before, "g", "greetings", [text], 1).1;
    GroupWritesKeepIntact(g, before, edit);
    assert Apply(g, before, edit) == UpdateGroup(before, "g", "greetings", [text], 1);
    assert MessagesOf(after.groups, {"g"}) == MessagesOf(Greeting(text).groups, {"g"});
  }

  /** The next run fails at the send, although the group has a message for it. */
  lemma EditStopsTheNextRun(w: World, text: string, name: string, tick: nat)
    requires name in w.grammar.templateNames(text) && forall n :: w.groupMessages(n, "g") == Some([text])
    requires w.enters(tick) && !w.cancelled(tick + 1)
    ensures Run(w, GroupSend(), tick).0 == Stopped(ConditionFailed(MissingVariable))
  {
    var steps, st := GroupSend(), Initial(tick + 1);
    var started := Reported(Ticked(st), NodeAt(steps[0], [0], true), Running);
    assert [] + [0] == [0];
    assert Choice(w, [text], started) == text;
    assert RunSend(w, steps[0], started) == (Stopped(ConditionFailed(MissingVariable)), started);
    assert RunStep(w, steps[0], [0], true, st).0 == Stopped(ConditionFailed(MissingVariable));
  }
}
