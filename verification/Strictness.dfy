/**
 * Strict and non-strict conditions: strictness only promotes errors, and on accepted conditions the
 * non-strict form absorbs every condition error and always picks a branch.
 */
module Strictness {
  import opened Wrappers
  import opened Workflow
  import opened Checker
  import opened Interpreter
  import opened TypeSoundness

  lemma {:induction false} StrictExtractionAgrees(w: World, extracts: seq<Extraction>, input: Input, s: Scratch)
    requires ExtractAll(w, extracts, true, input, s).0.Value?
    ensures ExtractAll(w, extracts, false, input, s) == ExtractAll(w, extracts, true, input, s)
    decreases extracts
  {
    if extracts != [] {
      var (r, b) := ExtractOne(w, extracts[0], input, s.budget);
      StrictExtractionAgrees(w, extracts[1..], input,
                             Scratch(s.vars[extracts[0].name := r.v], b, s.notes + [Extracted(r)]));
    }
  }

  lemma {:induction false} StrictRulesAgree(w: World, rules: seq<Rule>, all: bool, matched: bool, s: Scratch)
    requires EvaluateRules(w, rules, all, matched, true, s).0.Value?
    ensures EvaluateRules(w, rules, all, matched, false, s) == EvaluateRules(w, rules, all, matched, true, s)
    decreases rules
  {
    if rules != [] {
      var (r, b) := EvaluateRule(w, rules[0], s.vars, s.budget);
      if r.Value? && r.v == all {
        StrictRulesAgree(w, rules[1..], all, all, Scratch(s.vars, b, s.notes + [Evaluated(r)]));
      }
    }
  }

  lemma {:induction false} StrictBranchesAgree(w: World, branches: seq<Branch>, index: nat, s: Scratch)
    requires SelectFrom(w, branches, index, true, s).0.Value?
    ensures SelectFrom(w, branches, index, false, s) == SelectFrom(w, branches, index, true, s)
    decreases branches
  {
    if branches != [] && !branches[0].kind.Else? {
      StrictRulesAgree(w, branches[0].rules, branches[0].all, branches[0].all, s);
      var (r, s') := EvaluateRules(w, branches[0].rules, branches[0].all, branches[0].all, true, s);
      if r == Value(false) {
        StrictBranchesAgree(w, branches[1..], index + 1, s');
      }
    }
  }

  /**
   * Strict mode only promotes errors: whenever the strict form of a condition selects a branch, the
   * non-strict form selects the same branch and leaves the same variables, budget and notes.
   */
  lemma StrictOnlyPromotesErrors(w: World, step: Step, input: Input, s: Scratch)
    requires step.Condition? && SelectBranch(w, step, true, input, s).0.Value?
    ensures SelectBranch(w, step, false, input, s) == SelectBranch(w, step, true, input, s)
  {
    StrictExtractionAgrees(w, step.extracts, input, s);
    StrictBranchesAgree(w, step.branches, 0, ExtractAll(w, step.extracts, true, input, s).1);
  }

  // ----- the non-strict form absorbs condition errors -----

  /** Date parsing stays in range and text measurement in time. */
  ghost predicate FaultFree(w: World) {
    (forall raw :: !w.parseDate(raw).DateOverflow?) && (forall text :: w.graphemes(text).Some?)
  }

  lemma {:induction false} NonStrictExtractionNeverRaises(w: World, extracts: seq<Extraction>, input: Input, s: Scratch)
    ensures var r := ExtractAll(w, extracts, false, input, s).0;
            !r.Raise? && (FaultFree(w) ==> r.Value?)
    decreases extracts
  {
    if extracts != [] {
      var (r, b) := ExtractOne(w, extracts[0], input, s.budget);
      var notes := s.notes + [Extracted(r)];
      match r
      case Value(v) => NonStrictExtractionNeverRaises(w, extracts[1..], input, Scratch(s.vars[extracts[0].name := v], b, notes));
      case Raise(_) => NonStrictExtractionNeverRaises(w, extracts[1..], input, Scratch(s.vars - {extracts[0].name}, b, notes));
      case Crash(_) =>
    }
  }

  lemma {:induction false} ResolveAllNeverCrashes(w: World, operands: seq<Operand>, vars: Variables, t: ValueType)
    requires FaultFree(w)
    ensures !ResolveAll(w, operands, vars, t).Crash?
    decreases operands
  {
    if operands != [] {
      ResolveAllNeverCrashes(w, operands[1..], vars, t);
    }
  }

  lemma CleanRuleNeverCrashes(w: World, rule: Rule, vars: Variables, b: Budget)
    requires FaultFree(w) && !Bad(EvaluateRule(w, rule, vars, b).0)
    ensures !EvaluateRule(w, rule, vars, b).0.Crash?
  {
    ResolveAllNeverCrashes(w, rule.operands, vars, Text);
    ResolveAllNeverCrashes(w, rule.operands, vars, Number);
    ResolveAllNeverCrashes(w, rule.operands, vars, Datetime);
  }

  lemma {:induction false} NonStrictRulesNeverRaise(w: World, rules: seq<Rule>, all: bool, matched: bool, s: Scratch,
                                                    possible: Types)
    requires Typed(s.vars, possible)
    requires forall k :: 0 <= k < |rules| ==> RuleOk(w.grammar, rules[k], possible)
    ensures var (r, s') := EvaluateRules(w, rules, all, matched, false, s);
            !r.Raise? && (FaultFree(w) ==> r.Value?) && s'.vars == s.vars
    decreases rules
  {
    if rules != [] {
      var (r, b) := EvaluateRule(w, rules[0], s.vars, s.budget);
      RuleIsClean(w, rules[0], s.vars, s.budget, possible);
      if FaultFree(w) {
        CleanRuleNeverCrashes(w, rules[0], s.vars, s.budget);
      }
      NonStrictRulesNeverRaise(w, rules[1..], all, all, Scratch(s.vars, b, s.notes + [Evaluated(r)]), possible);
    }
  }

  lemma {:induction false} NonStrictBranchesAlwaysPick(w: World, branches: seq<Branch>, index: nat, s: Scratch,
                                                       possible: Types)
    requires branches != [] && branches[|branches| - 1].kind.Else? && Typed(s.vars, possible)
    requires forall k :: 0 <= k < |branches| ==> BranchRulesOk(w.grammar, branches[k], possible)
    ensures var r := SelectFrom(w, branches, index, false, s).0;
            !r.Raise? && (FaultFree(w) ==> r.Value?)
    decreases branches
  {
    if !branches[0].kind.Else? {
      NonStrictRulesNeverRaise(w, branches[0].rules, branches[0].all, branches[0].all, s, possible);
      var (r, s') := EvaluateRules(w, branches[0].rules, branches[0].all, branches[0].all, false, s);
      if r == Value(false) {
        NonStrictBranchesAlwaysPick(w, branches[1..], index + 1, s', possible);
      }
    }
  }

  /**
   * On an accepted version-2 condition that is not strict, no condition error gets through: a branch
   * is picked, unless date parsing overflows or text measurement times out, which no condition absorbs.
   */
  lemma NonStrictAlwaysPicks(w: World, step: Step, st: State, depth: nat, s: Scope, ids: set<string>)
    requires step.Condition? && !step.strict
    requires CheckVersion2(w.grammar, step, depth, s, ids).Some? && Agrees(st, s)
    ensures var r := Selection(w, step, st).0;
            && !r.Raise? && (FaultFree(w) ==> r.Value?)
            && (r.Crash? ==> r.f.Overflow? || r.f.Timeout?)
  {
    var input := Input(st.lastText, st.lastMetadata);
    NonStrictExtractionNeverRaises(w, step.extracts, input, ScratchOf(st));
    ConditionExtractsAgree(w, step, st, depth, s, ids);
    ConditionRulesAreOk(w.grammar, step, depth, s, ids);
    SelectionAgrees(w, step, st, depth, s, ids);
    LastBranchIsElse(w.grammar, step, depth, s, ids);
    var (r, s') := ExtractAll(w, step.extracts, false, input, ScratchOf(st));
    if r.Value? {
      NonStrictBranchesAlwaysPick(w, step.branches, 0, s', Inner(w.grammar, step, s).possible);
    }
  }

  lemma LastBranchIsElse(g: Grammar, step: Step, depth: nat, s: Scope, ids: set<string>)
    requires step.Condition? && CheckVersion2(g, step, depth, s, ids).Some?
    ensures step.branches != [] && step.branches[|step.branches| - 1].kind.Else?
  {
    var _ := BranchScope(g, step.branches, 0, |step.branches|, depth, Inner(g, step, s),
                         CheckNodeId(step.nodeId, ids).value, |step.branches| - 1);
  }

  // ----- legacy conditions are outside the typing theorems -----

  function WholeText(name: string): Extraction { Extraction(name, false, None, Mode.WholeText, Text, None, None, None) }

  function InnerCondition(rule: Rule): Step {
    Condition(Some("c"), true, true, [WholeText("x")], [Branch(If, true, [rule], []), Branch(Else, true, [], [])])
  }

  function LegacyCondition(legacy: Rule, rule: Rule): Step {
    Condition(None, false, false, [], [Branch(If, true, [legacy], []), Branch(Else, true, [], [InnerCondition(rule)])])
  }

  predicate ChecksX(rule: Rule) {
    rule.variable == "x" && rule.valueType.Text? && rule.operator.Exists? && rule.operands == [] && rule.regex == None
  }

  /** The same check of a variable as normalizing a legacy rule leaves it. */
  predicate LegacyChecksX(rule: Rule) {
    && rule.variable == "x" && rule.valueType.Text? && rule.operator.Exists?
    && |rule.operands| == 1 && rule.operands[0].Literal?
    && rule.regex == Some(RegexConfig(false, false, false))
    && !rule.normalization.collapse && !rule.normalization.stripMarkdown
  }

  lemma InnerIsAccepted(g: Grammar, rule: Rule)
    requires g.validName("x") && ChecksX(rule)
    ensures CheckStep(g, InnerCondition(rule), 1, Scope(map[], map[], true), {}).Some?
  {
    var step, extract := InnerCondition(rule), WholeText("x");
    assert step.extracts[1..] == [];
    var declared: Types := map["x" := Text];
    assert Declare(g, step.extracts, map[], map[]) == Declare(g, [], declared, map[]);
    var inner := Scope(map[] + declared, map[] + declared, true);
    assert {} + {"c"} == {"c"};
    assert CheckNodeId(step.nodeId, {}) == Some({"c"});
    assert map[] + declared == declared;
    assert BranchRulesOk(g, step.branches[0], inner.possible);
    assert step.branches[1..] == [step.branches[1]] && step.branches[1..][1..] == [];
    assert CheckBranches(g, step.branches[1..], 1, 2, 2, inner, {"c"}) == Some(([inner] + [], {"c"}));
    assert [inner] + [] == [inner] && ExpectedKind(0, 2) == If;
    assert CheckSteps(g, step.branches[0].steps, 2, inner, {"c"}) == Some(Checked(inner, {"c"}));
    assert step.branches[0].kind == If;
    assert CheckBranches(g, step.branches[1..], 0 + 1, 2, 2, inner, {"c"}) == Some(([inner], {"c"}));
    assert CheckBranches(g, step.branches, 0, 2, 2, inner, {"c"}) == Some(([inner] + [inner], {"c"}));
    assert [inner, inner][1..] == [inner] && [inner][1..] == [];
    assert [inner] + [inner] == [inner, inner];
    assert MergePossible([inner, inner], map[]).Some? by {
      assert map[] + inner.possible == inner.possible;
      assert MergePossible([inner], inner.possible).Some?;
    }
  }

  lemma LegacyIsAccepted(g: Grammar, legacy: Rule, rule: Rule)
    requires g.validName("x") && ChecksX(rule)
    ensures Accepts(g, [LegacyCondition(legacy, rule)])
  {
    var step := LegacyCondition(legacy, rule);
    var branches, empty := step.branches, Scope(map[], map[], true);
    InnerIsAccepted(g, rule);
    assert branches[1].steps[1..] == [] && [step][1..] == [];
    assert branches[1..] == [branches[1]] && branches[1..][1..] == [];
    var c := CheckStep(g, InnerCondition(rule), 1, empty, {}).value;
    assert CheckSteps(g, branches[1].steps, 1, empty, {}) == Some(c);
    assert CheckLegacyBranches(g, branches[1..], 1, {}) == Some(c.ids);
    assert CheckLegacyBranches(g, branches, 1, {}) == Some(c.ids);
    assert CheckStep(g, step, 0, EMPTY_SCOPE, {}).Some?;
    LegacySources(legacy, rule);
  }

  lemma LegacySources(legacy: Rule, rule: Rule)
    ensures CheckSources([LegacyCondition(legacy, rule)], NO_SOURCES).Some?
  {
    var step, inner := LegacyCondition(legacy, rule), InnerCondition(rule);
    assert inner.branches[1..] == [inner.branches[1]] && inner.branches[1..][1..] == [];
    assert CheckBranchSources(inner.branches[1..], NO_SOURCES).Some?;
    assert CheckBranchSources(inner.branches, NO_SOURCES).Some?;
    assert CheckStepSources(inner, NO_SOURCES).Some?;
    assert step.branches[1].steps[1..] == [];
    assert CheckSources(step.branches[1].steps, NO_SOURCES).Some?;
    assert step.branches[1..] == [step.branches[1]] && step.branches[1..][1..] == [];
    assert CheckBranchSources(step.branches[1..], NO_SOURCES).Some?;
    assert CheckBranchSources(step.branches, NO_SOURCES).Some?;
    assert [step][1..] == [];
  }

  /** The rule fails on the unset variable, so the legacy condition takes its last branch. */
  lemma LegacyTakesLastBranch(w: World, legacy: Rule, rule: Rule, st: State)
    requires st.vars == map[]
    ensures var (r, st') := Selection(w, LegacyCondition(legacy, rule), st);
            r == Value(1) && st'.lastText == st.lastText
  {
    var branches, s := LegacyCondition(legacy, rule).branches, ScratchOf(st);
    var (m, s1) := EvaluateRules(w, [legacy], true, true, false, s);
    assert m == Value(false);
    assert branches[1..][0] == branches[1];
    assert SelectFrom(w, branches[1..], 1, false, s1) == (Value(1), s1);
    assert SelectFrom(w, branches, 0, false, s) == (Value(1), s1);
  }

  lemma InnerFailsWithoutWait(w: World, rule: Rule, prefix: seq<nat>, st: State)
    requires st.lastText == None && forall n :: !w.cancelled(n)
    ensures RunSteps(w, [InnerCondition(rule)], prefix, 0, false, st).0 == Stopped(ConditionFailed(MissingText))
  {
    var step := InnerCondition(rule);
    var node := NodeAt(step, prefix + [0], false);
    var started := Reported(Ticked(st), node, Running);
    assert step.extracts == [WholeText("x")];
    assert Selection(w, step, started).0 == Raise(MissingText);
    assert RunCondition(w, step, node, started).0 == Stopped(ConditionFailed(MissingText));
    assert RunStep(w, step, prefix + [0], false, st).0 == Stopped(ConditionFailed(MissingText));
  }

  /**
   * The typing theorems need version-2 conditions: the checker takes a wait for granted inside
   * legacy branches, so that this workflow is accepted and yet fails for want of a wait.
   */
  lemma LegacyConditionsEscapeTheChecks(w: World, legacy: Rule, rule: Rule, tick: nat)
    requires w.grammar.validName("x") && LegacyChecksX(legacy) && ChecksX(rule)
    requires w.enters(tick) && WellFormed(w, LegacyCondition(legacy, rule)) && forall n :: !w.cancelled(n)
    ensures var steps := [LegacyCondition(legacy, rule)];
            && Accepts(w.grammar, steps) && !AllVersion2(steps)
            && Run(w, steps, tick).0 == Stopped(ConditionFailed(MissingText))
  {
    var step, st := LegacyCondition(legacy, rule), Initial(tick + 1);
    LegacyIsAccepted(w.grammar, legacy, rule);
    assert [] + [0] == [0];
    var node := NodeAt(step, [0], true);
    var started := Reported(Ticked(st), node, Running);
    LegacyTakesLastBranch(w, legacy, rule, started);
    var marking := SkipBranches(w, step.branches, node.path, 0, 1);
    NothingToSkip(w, step.branches, node.path);
    var selected := Reported(Selection(w, step, started).1, node, Success);
    var skipped := selected.(reports := selected.reports + marking.reports);
    assert step.branches[1].steps == [InnerCondition(rule)];
    InnerFailsWithoutWait(w, rule, node.path + [1], skipped);
    assert RunCondition(w, step, node, started).0 == Stopped(ConditionFailed(MissingText));
    assert RunStep(w, step, [] + [0], true, st).0 == Stopped(ConditionFailed(MissingText));
  }

  lemma NothingToSkip(w: World, branches: seq<Branch>, path: seq<nat>)
    requires |branches| == 2 && branches[0].steps == []
    ensures SkipBranches(w, branches, path, 0, 1).whole
  {
    assert branches[1..] == [branches[1]] && [branches[1]][1..] == [];
    assert SkipBranches(w, [branches[1]], path, 1, 1).whole;
  }
}
