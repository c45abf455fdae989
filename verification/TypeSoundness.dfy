/**
 * Type soundness: in any run of an accepted workflow without legacy conditions, the variables that
 * are set have the types the checker computed, and no rule or extraction ever fails because of a
 * type mismatch, an unsupported operator, a missing operand or a wait that has not happened, even
 * where a non-strict condition would have hidden the failure.
 */
module TypeSoundness {
  import opened Wrappers
  import opened Workflow
  import opened Checker
  import opened Interpreter

  ghost predicate Typed(vars: Variables, possible: Types) {
    forall x :: x in vars ==> x in possible && TypeOf(vars[x].value) == possible[x]
  }

  /** The failures that acceptance rules out. */
  predicate Bad<T>(r: Eval<T>) {
    || (r.Raise? && (r.e.TypeMismatch? || r.e.UnsupportedOperator? || r.e.MissingText?))
    || (r.Crash? && r.f.MissingOperand?)
  }

  predicate CleanNote(n: Note) {
    match n
    case Extracted(x) => !Bad(x)
    case Evaluated(r) => !Bad(r)
    case _ => true
  }

  ghost predicate Clean(notes: seq<Note>) { forall k :: 0 <= k < |notes| ==> CleanNote(notes[k]) }

  ghost predicate Included(p: Types, q: Types) {
    forall x :: x in p ==> x in q && q[x] == p[x]
  }

  // ----- rules -----

  lemma {:induction false} ResolveAllIsClean(w: World, operands: seq<Operand>, vars: Variables, t: ValueType, possible: Types)
    requires Typed(vars, possible)
    requires forall k :: 0 <= k < |operands| ==> OperandOk(operands[k], t, possible)
    ensures !Bad(ResolveAll(w, operands, vars, t))
    decreases operands
  {
    if operands != [] {
      ResolveAllIsClean(w, operands[1..], vars, t, possible);
    }
  }

  lemma LengthRuleIsClean(w: World, rule: Rule, text: string, vars: Variables, possible: Types)
    requires RuleOk(w.grammar, rule, possible) && Typed(vars, possible) && IsLength(rule.operator)
    ensures !Bad(EvaluateLength(w, rule, text, vars))
  {
    ResolveAllIsClean(w, rule.operands, vars, Number, possible);
  }

  lemma TextRuleIsClean(w: World, rule: Rule, text: string, vars: Variables, b: Budget, possible: Types)
    requires RuleOk(w.grammar, rule, possible) && Typed(vars, possible) && rule.valueType.Text?
    requires !IsLength(rule.operator) && !IsUnary(rule.operator)
    ensures !Bad(EvaluateText(w, rule, text, vars, b).0)
  {
    ResolveAllIsClean(w, rule.operands, vars, Text, possible);
  }

  lemma OrderedRuleIsClean(w: World, rule: Rule, x: Interpreter.Value, vars: Variables, possible: Types)
    requires RuleOk(w.grammar, rule, possible) && Typed(vars, possible) && !rule.valueType.Text?
    requires !rule.operator.Exists?
    ensures !Bad(EvaluateOrdered(w, rule, x, vars))
  {
    ResolveAllIsClean(w, rule.operands, vars, rule.valueType, possible);
  }

  /** An accepted rule never fails for a type, operator or operand reason. */
  lemma RuleIsClean(w: World, rule: Rule, vars: Variables, b: Budget, possible: Types)
    requires RuleOk(w.grammar, rule, possible) && Typed(vars, possible)
    ensures !Bad(EvaluateRule(w, rule, vars, b).0)
  {
    if rule.variable in vars && !rule.operator.Exists? {
      var x := vars[rule.variable].value;
      if rule.valueType.Text? {
        var text := w.normalize(TextOf(x), rule.normalization);
        if IsLength(rule.operator) {
          LengthRuleIsClean(w, rule, text, vars, possible);
        } else if !IsUnary(rule.operator) {
          TextRuleIsClean(w, rule, text, vars, b, possible);
        }
      } else {
        OrderedRuleIsClean(w, rule, x, vars, possible);
      }
    }
  }

  lemma {:induction false} RulesAreClean(w: World, rules: seq<Rule>, all: bool, matched: bool, strict: bool, s: Scratch,
                                         possible: Types)
    requires forall k :: 0 <= k < |rules| ==> RuleOk(w.grammar, rules[k], possible)
    requires Typed(s.vars, possible) && Clean(s.notes)
    ensures var (r, s') := EvaluateRules(w, rules, all, matched, strict, s);
            !Bad(r) && s'.vars == s.vars && Clean(s'.notes)
    decreases rules
  {
    if rules != [] {
      RuleIsClean(w, rules[0], s.vars, s.budget, possible);
      var (r, b) := EvaluateRule(w, rules[0], s.vars, s.budget);
      RulesAreClean(w, rules[1..], all, all, strict, Scratch(s.vars, b, s.notes + [Evaluated(r)]), possible);
    }
  }

  lemma {:induction false} BranchesAreClean(w: World, branches: seq<Branch>, index: nat, strict: bool, s: Scratch,
                                            possible: Types)
    requires forall k :: 0 <= k < |branches| ==> BranchRulesOk(w.grammar, branches[k], possible)
    requires Typed(s.vars, possible) && Clean(s.notes)
    ensures var (r, s') := SelectFrom(w, branches, index, strict, s);
            !Bad(r) && s'.vars == s.vars && Clean(s'.notes)
    decreases branches
  {
    if branches != [] && !branches[0].kind.Else? {
      RulesAreClean(w, branches[0].rules, branches[0].all, branches[0].all, strict, s, possible);
      var (r, s') := EvaluateRules(w, branches[0].rules, branches[0].all, branches[0].all, strict, s);
      if r == Value(false) {
        BranchesAreClean(w, branches[1..], index + 1, strict, s', possible);
      }
    }
  }

  // ----- extractions -----

  /** Extraction keeps variables typed, also where it drops one, if each may have its declared type. */
  lemma {:induction false} ExtractAllIsTyped(w: World, extracts: seq<Extraction>, strict: bool, input: Input, s: Scratch,
                                             possible: Types)
    requires forall k :: 0 <= k < |extracts| ==>
               extracts[k].name in possible && possible[extracts[k].name] == extracts[k].valueType
    requires Typed(s.vars, possible) && Clean(s.notes)
    requires forall k :: 0 <= k < |extracts| ==> input.text.Some? || extracts[k].fromMetadata
    ensures var (r, s') := ExtractAll(w, extracts, strict, input, s);
            !Bad(r) && Typed(s'.vars, possible) && Clean(s'.notes)
    decreases extracts
  {
    if extracts != [] {
      var (r, b) := ExtractOne(w, extracts[0], input, s.budget);
      var notes := s.notes + [Extracted(r)];
      match r
      case Value(v) =>
        ExtractAllIsTyped(w, extracts[1..], strict, input, Scratch(s.vars[extracts[0].name := v], b, notes), possible);
      case Raise(_) =>
        ExtractAllIsTyped(w, extracts[1..], strict, input, Scratch(s.vars - {extracts[0].name}, b, notes), possible);
      case Crash(_) =>
    }
  }

  /** What the checker declares for the extractions of a condition. */
  lemma {:induction false} DeclaredTypes(g: Grammar, extracts: seq<Extraction>, declared: Types, possible: Types)
    requires Declare(g, extracts, declared, possible).Some? && declared.Keys !! possible.Keys
    ensures var d := Declare(g, extracts, declared, possible).value;
            && Included(declared, d) && d.Keys !! possible.Keys
            && forall k :: 0 <= k < |extracts| ==> extracts[k].name in d && d[extracts[k].name] == extracts[k].valueType
    decreases extracts
  {
    if extracts != [] {
      DeclaredTypes(g, extracts[1..], declared[extracts[0].name := extracts[0].valueType], possible);
    }
  }

  // ----- merging -----

  lemma {:induction false} MergeIncludes(scopes: seq<Scope>, merged: Types, k: nat)
    requires MergePossible(scopes, merged).Some? && k < |scopes|
    ensures var p := MergePossible(scopes, merged).value;
            Included(merged, p) && Included(scopes[k].possible, p)
    decreases scopes
  {
    var next := merged + scopes[0].possible;
    assert Included(merged, next) && Included(scopes[0].possible, next);
    if k > 0 {
      MergeIncludes(scopes[1..], next, k - 1);
    } else if |scopes| > 1 {
      MergeIncludes(scopes[1..], next, 0);
    }
  }

  lemma {:induction false} BranchScope(g: Grammar, branches: seq<Branch>, index: nat, count: nat, depth: nat, s: Scope,
                                       ids: set<string>, k: nat) returns (ids': set<string>)
    requires CheckBranches(g, branches, index, count, depth, s, ids).Some? && k < |branches|
    ensures BranchRulesOk(g, branches[k], s.possible)
    ensures branches[k].kind == ExpectedKind(index + k, count)
    ensures var c := CheckSteps(g, branches[k].steps, depth, s, ids');
            c.Some? && c.value.scope == CheckBranches(g, branches, index, count, depth, s, ids).value.0[k]
    decreases branches
  {
    if k == 0 {
      ids' := ids;
    } else {
      var c := CheckSteps(g, branches[0].steps, depth, s, ids).value;
      ids' := BranchScope(g, branches[1..], index + 1, count, depth, s, c.ids, k - 1);
    }
  }

  // ----- runs -----

  /** The run context agrees with the checker's scope. */
  ghost predicate Agrees(st: State, s: Scope) {
    Typed(st.vars, s.possible) && Clean(st.notes) && (s.hasWait ==> st.lastText.Some?)
  }

  ghost predicate Reaches(r: (Outcome, State), s: Scope) {
    Clean(r.1.notes) && (r.0.Done? ==> Agrees(r.1, s))
  }

  lemma HttpExtractAgrees(w: World, step: Step, st: State, s: Scope)
    requires step.Extract? && Agrees(st, s) && step.extraction.name !in s.possible
    ensures Reaches(RunHttpExtract(w, step, st), PlainScope(step, s))
  {
    hide HttpInput, HttpRaw, Clean, Typed;
    if HttpInput(step, st).Ok? {
      var response := HttpInput(step, st).value;
      var read := Noted(st, ReadResponse(step.sourceNodeId, response));
      NotedAgrees(st, ReadResponse(step.sourceNodeId, response), s);
      if HttpRaw(w, step, response).Ok? {
        ConvertedIsTyped(w, HttpRaw(w, step, response).value, step.extraction, st.vars, s.possible);
      }
    }
  }

  lemma ConvertedIsTyped(w: World, raw: string, e: Extraction, vars: Variables, possible: Types)
    requires Typed(vars, possible) && e.name !in possible
    ensures var x := Convert(w, raw, e.valueType);
            x.Value? ==> Typed(vars[e.name := x.v], possible[e.name := e.valueType])
  {
  }

  lemma NotedAgrees(st: State, note: Note, s: Scope)
    requires Agrees(st, s) && CleanNote(note)
    ensures Agrees(Noted(st, note), s)
  {
  }

  lemma WaitExtractRuns(w: World, step: Step, st: State)
    requires step.Extract? && step.source.WaitText? && WaitInput(step, st).Ok?
    ensures var input := WaitInput(step, st).value;
            var (r, s) := ExtractAll(w, [Declared(step)], true, input, ScratchOf(Noted(st, ReadWait(step.sourceNodeId, input))));
            RunWaitExtract(w, step, st) == (Stop(r), WithScratch(st, s))
    ensures WaitInput(step, st).value.text.Some? || Declared(step).fromMetadata
  {
    hide ExtractAll;
  }

  lemma WaitExtractAgrees(w: World, step: Step, st: State, s: Scope)
    requires step.Extract? && step.source.WaitText? && Agrees(st, s) && ExtractOk(w.grammar, Declared(step), map[], s.possible)
    ensures Reaches(RunWaitExtract(w, step, st), PlainScope(step, s))
  {
    var e, name := Declared(step), step.extraction.name;
    assert e.name == name && name !in s.possible && e.valueType == step.extraction.valueType;
    hide ExtractAll, ExtractOk, Typed, Clean;
    if WaitInput(step, st).Ok? {
      var input := WaitInput(step, st).value;
      WaitExtractRuns(w, step, st);
      hide RunWaitExtract, Declared, WaitInput;
      var read := Noted(st, ReadWait(step.sourceNodeId, input));
      NotedAgrees(st, ReadWait(step.sourceNodeId, input), s);
      ExtractionAgrees(w, e, input, read, s);
      var (r, x) := ExtractAll(w, [e], true, input, ScratchOf(read));
      assert Agrees(WithScratch(st, x), PlainScope(step, s));
    }
  }

  lemma ExtractionAgrees(w: World, e: Extraction, input: Input, st: State, s: Scope)
    requires Agrees(st, s) && e.name !in s.possible && (input.text.Some? || e.fromMetadata)
    ensures var (r, x) := ExtractAll(w, [e], true, input, ScratchOf(st));
            Typed(x.vars, s.possible[e.name := e.valueType]) && Clean(x.notes)
  {
    var possible := s.possible[e.name := e.valueType];
    ExtractAllIsTyped(w, [e], true, input, ScratchOf(st), possible);
  }

  lemma PlainStepAgrees(w: World, step: Step, node: Node, st: State, s: Scope)
    requires !step.Condition? && PlainStepOk(w.grammar, step, s.possible) && Agrees(st, s)
    ensures Reaches(RunPlain(w, step, node, st), PlainScope(step, s))
  {
    match step
    case Send(_, _) =>
    case Wait(_, _, _) =>
    case Click(_, _, _, _) =>
    case Http(_, _, _, _, _) =>
    case Extract(_, source, _, _, _) =>
      if source.WaitText? { WaitExtractAgrees(w, step, st, s); } else { HttpExtractAgrees(w, step, st, s); }
  }

  lemma {:induction false} StepsAgree(w: World, steps: seq<Step>, prefix: seq<nat>, i: nat, top: bool, st: State,
                                      depth: nat, s: Scope, ids: set<string>)
    requires CheckSteps(w.grammar, steps, depth, s, ids).Some? && AllVersion2(steps) && Agrees(st, s)
    ensures Reaches(RunSteps(w, steps, prefix, i, top, st), CheckSteps(w.grammar, steps, depth, s, ids).value.scope)
    decreases steps, 0
  {
    if steps != [] {
      StepAgrees(w, steps[0], prefix + [i], top, st, depth, s, ids);
      var (o, st') := RunStep(w, steps[0], prefix + [i], top, st);
      if o.Done? {
        var c := CheckStep(w.grammar, steps[0], depth, s, ids).value;
        StepsAgree(w, steps[1..], prefix, i + 1, top, st', depth, c.scope, c.ids);
      }
    }
  }

  lemma {:induction false} StepAgrees(w: World, step: Step, path: seq<nat>, top: bool, st: State,
                                      depth: nat, s: Scope, ids: set<string>)
    requires CheckStep(w.grammar, step, depth, s, ids).Some? && StepVersion2(step) && Agrees(st, s)
    ensures Reaches(RunStep(w, step, path, top, st), CheckStep(w.grammar, step, depth, s, ids).value.scope)
    decreases step, 1
  {
    hide RunPlain, RunCondition, PlainStepOk;
    var node := NodeAt(step, path, top);
    if WellFormed(w, step) && !w.cancelled(st.tick) {
      var started := Reported(Ticked(st), node, Running);
      if step.Condition? {
        ConditionAgrees(w, step, node, started, depth + 1, s, ids);
      } else {
        PlainStepAgrees(w, step, node, started, s);
      }
    }
  }

  /** The scope in which the branches of a condition are checked. */
  function Inner(g: Grammar, step: Step, s: Scope): Scope
    requires step.Condition? && Declare(g, step.extracts, map[], s.possible).Some?
  {
    var declared := Declare(g, step.extracts, map[], s.possible).value;
    Scope(s.definite + declared, s.possible + declared, s.hasWait)
  }

  lemma SelectionAgrees(w: World, step: Step, st: State, depth: nat, s: Scope, ids: set<string>)
    requires step.Condition? && CheckVersion2(w.grammar, step, depth, s, ids).Some? && Agrees(st, s)
    ensures var (r, st') := Selection(w, step, st);
            !Bad(r) && Agrees(st', Inner(w.grammar, step, s))
  {
    hide ExtractAll, SelectFrom, CheckBranches, BranchRulesOk;
    var inner, input := Inner(w.grammar, step, s), Input(st.lastText, st.lastMetadata);
    ConditionExtractsAgree(w, step, st, depth, s, ids);
    var (r, s') := ExtractAll(w, step.extracts, step.strict, input, ScratchOf(st));
    if r.Value? {
      ConditionRulesAreOk(w.grammar, step, depth, s, ids);
      BranchesAreClean(w, step.branches, 0, step.strict, s', inner.possible);
    }
  }

  lemma ConditionExtractsAgree(w: World, step: Step, st: State, depth: nat, s: Scope, ids: set<string>)
    requires step.Condition? && CheckVersion2(w.grammar, step, depth, s, ids).Some? && Agrees(st, s)
    ensures var (r, s') := ExtractAll(w, step.extracts, step.strict, Input(st.lastText, st.lastMetadata), ScratchOf(st));
            !Bad(r) && Typed(s'.vars, Inner(w.grammar, step, s).possible) && Clean(s'.notes)
  {
    var possible, input := Inner(w.grammar, step, s).possible, Input(st.lastText, st.lastMetadata);
    DeclaredTypes(w.grammar, step.extracts, map[], s.possible);
    assert step.extracts != [] ==> input.text.Some?;
    ExtractAllIsTyped(w, step.extracts, step.strict, input, ScratchOf(st), possible);
  }

  lemma ConditionRulesAreOk(g: Grammar, step: Step, depth: nat, s: Scope, ids: set<string>)
    requires step.Condition? && CheckVersion2(g, step, depth, s, ids).Some?
    ensures forall k :: 0 <= k < |step.branches| ==> BranchRulesOk(g, step.branches[k], Inner(g, step, s).possible)
  {
    forall k | 0 <= k < |step.branches|
      ensures BranchRulesOk(g, step.branches[k], Inner(g, step, s).possible)
    {
      var _ := BranchScope(g, step.branches, 0, |step.branches|, depth, Inner(g, step, s),
                           CheckNodeId(step.nodeId, ids).value, k);
    }
  }

  lemma {:induction false} ConditionAgrees(w: World, step: Step, node: Node, st: State,
                                           depth: nat, s: Scope, ids: set<string>)
    requires step.Condition? && step.version2 && BranchesVersion2(step.branches)
    requires CheckVersion2(w.grammar, step, depth, s, ids).Some? && Agrees(st, s)
    ensures Reaches(RunCondition(w, step, node, st), CheckVersion2(w.grammar, step, depth, s, ids).value.scope)
    decreases step, 0
  {
    SelectionAgrees(w, step, st, depth, s, ids);
    var (r, chosen) := Selection(w, step, st);
    if r.Value? {
      var k, inner, ids' := r.v, Inner(w.grammar, step, s), CheckNodeId(step.nodeId, ids).value;
      var selected, marking := Reported(chosen, node, Success), SkipBranches(w, step.branches, node.path, 0, k);
      var skipped := selected.(reports := selected.reports + marking.reports);
      var idsK := BranchScope(w.grammar, step.branches, 0, |step.branches|, depth, inner, ids', k);
      BranchIsVersion2(step.branches, k);
      StepsAgree(w, step.branches[k].steps, node.path + [k], 0, false, skipped, depth, inner, idsK);
      var scopes := CheckBranches(w.grammar, step.branches, 0, |step.branches|, depth, inner, ids').value.0;
      MergedScopeAgrees(scopes, k, RunSteps(w, step.branches[k].steps, node.path + [k], 0, false, skipped));
    }
  }

  lemma {:induction false} BranchIsVersion2(branches: seq<Branch>, k: nat)
    requires BranchesVersion2(branches) && k < |branches|
    ensures AllVersion2(branches[k].steps)
  {
    if k > 0 {
      BranchIsVersion2(branches[1..], k - 1);
    }
  }

  lemma MergedScopeAgrees(scopes: seq<Scope>, k: nat, r: (Outcome, State))
    requires k < |scopes| && Merge(scopes).Some? && Reaches(r, scopes[k])
    ensures Reaches(r, Merge(scopes).value)
  {
    MergeIncludes(scopes, map[], k);
  }

  /**
   * Type soundness: on every run of an accepted workflow whose conditions are all of version 2, no
   * extraction and no rule ever fails by type, operator, operand count or a missing wait; and the
   * variables left at the end are among the checker's possible ones, with the checker's types.
   */
  lemma AcceptedRunsAreTyped(w: World, steps: seq<Step>, tick: nat)
    requires Accepts(w.grammar, steps) && AllVersion2(steps)
    ensures var (o, st) := Run(w, steps, tick);
            && Clean(st.notes)
            && (o.Done? ==> Typed(st.vars, CheckSteps(w.grammar, steps, 0, EMPTY_SCOPE, {}).value.scope.possible))
  {
    StepsAgree(w, steps, [], 0, true, Initial(tick + 1), 0, EMPTY_SCOPE, {});
  }
}
