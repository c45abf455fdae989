/**
 * When a condition selects a branch at all: strictly or not, exactly if its extractions and the rules that
 * are judged on the way to the first match go through. Rules have an operator of their type and the number
 * of operands that it takes, as the rules of accepted workflows do.
 */
module Judgement {
  import opened Wrappers
  import opened Workflow
  import opened Interpreter
  import opened RuleMeaning
  import opened ExtractionMeaning
  import WellFormed

  // ----- rules -----

  predicate Fits(rule: Rule) {
    && rule.operator in WellFormed.Operators(rule.valueType)
    && WellFormed.TakesOperands(rule.operator, |rule.operands|)
  }

  ghost predicate AllFit(rules: seq<Rule>) { forall k :: 0 <= k < |rules| ==> Fits(rules[k]) }

  /** The variable that the rule is about is set, and has the type that the rule says. */
  predicate HasSubject(rule: Rule, vars: Variables) {
    rule.variable in vars && TypeOf(vars[rule.variable].value) == rule.valueType
  }

  function OperandType(rule: Rule): ValueType { if IsLength(rule.operator) then Number else rule.valueType }

  /** The operand stands for something. */
  ghost predicate Stands(w: World, operand: Operand, vars: Variables, t: ValueType) {
    exists v :: StandsFor(w, operand, vars, t, v)
  }

  /** The operands all do. */
  ghost predicate HasOperands(w: World, rule: Rule, vars: Variables) {
    forall k :: 0 <= k < |rule.operands| ==> Stands(w, rule.operands[k], vars, OperandType(rule))
  }

  /** The text that a rule looks at. */
  function Looked(w: World, rule: Rule, vars: Variables): string
    requires rule.variable in vars
  {
    w.normalize(TextOf(vars[rule.variable].value), rule.normalization)
  }

  /** The regular expression engine is asked, and does not fail. */
  predicate Answered(w: World, rule: Rule, pattern: string, input: string, b: Budget) {
    Asks(pattern, input, b) && Answer(w, rule, pattern, input, b).outcome.Some?
  }

  /** The rule can be decided, one way or the other. */
  ghost predicate Decidable(w: World, rule: Rule, vars: Variables, b: Budget) {
    && HasSubject(rule, vars)
    && (!IsUnary(rule.operator) ==>
          && HasOperands(w, rule, vars)
          && (IsLength(rule.operator) ==>
                && w.graphemes(Looked(w, rule, vars)).Some?
                && forall k, v :: 0 <= k < |rule.operands| && StandsFor(w, rule.operands[k], vars, Number, v)
                                  ==> v.number >= 0.0 && v.number.Floor as real == v.number)
          && (rule.operator.Regex? ==>
                && rule.operands != []
                && exists v :: StandsFor(w, rule.operands[0], vars, Text, v) && Answered(w, rule, TextOf(v), Looked(w, rule, vars), b)))
  }

  /** The rule ends the run: a length cannot be measured in time, or a literal is a date too far away. */
  ghost predicate Fatal(w: World, rule: Rule, vars: Variables) {
    && HasSubject(rule, vars) && !IsUnary(rule.operator)
    && (|| (IsLength(rule.operator) && w.graphemes(Looked(w, rule, vars)) == None)
        || exists k :: 0 <= k < |rule.operands| && LiteralTooFar(w, rule.operands[k], OperandType(rule))
                       && forall j :: 0 <= j < k ==> Stands(w, rule.operands[j], vars, OperandType(rule)))
  }

  lemma OperandStands(w: World, operand: Operand, vars: Variables, t: ValueType)
    ensures Resolve(w, operand, vars, t).Value? <==> Stands(w, operand, vars, t)
  {
    hide StandsFor, Resolve;
    OperandStandsFor(w, operand, vars, t);
    if Resolve(w, operand, vars, t).Value? {
      assert StandsFor(w, operand, vars, t, Resolve(w, operand, vars, t).v);
    }
  }

  /** Operands are resolved exactly if each stands for something. */
  lemma {:induction false} OperandsResolve(w: World, operands: seq<Operand>, vars: Variables, t: ValueType)
    ensures ResolveAll(w, operands, vars, t).Value?
            <==> forall k :: 0 <= k < |operands| ==> Stands(w, operands[k], vars, t)
  {
    hide StandsFor, Resolve, Stands;
    if operands != [] {
      OperandStands(w, operands[0], vars, t);
      OperandsResolve(w, operands[1..], vars, t);
      assert forall k :: 0 < k < |operands| ==> operands[k] == operands[1..][k - 1];
    }
  }

  lemma OperandsAreFatal(w: World, rule: Rule, vars: Variables)
    ensures ResolveAll(w, rule.operands, vars, OperandType(rule)).Crash?
            <==> exists k :: 0 <= k < |rule.operands| && LiteralTooFar(w, rule.operands[k], OperandType(rule))
                             && forall j :: 0 <= j < k ==> Stands(w, rule.operands[j], vars, OperandType(rule))
  {
    hide Stands, LiteralTooFar, ResolveAll, OperandType;
    OperandsTooFar(w, rule.operands, vars, OperandType(rule));
    forall k | 0 <= k <= |rule.operands|
      ensures ResolveAll(w, rule.operands[..k], vars, OperandType(rule)).Value?
              <==> forall j :: 0 <= j < k ==> Stands(w, rule.operands[j], vars, OperandType(rule))
    {
      OperandsResolve(w, rule.operands[..k], vars, OperandType(rule));
      assert forall j :: 0 <= j < k ==> rule.operands[..k][j] == rule.operands[j];
    }
  }

  lemma OrderedIsDecided(w: World, rule: Rule, vars: Variables, x: Value)
    requires Fits(rule) && !rule.valueType.Text? && !rule.operator.Exists? && TypeOf(x) == rule.valueType
    ensures var r, e := EvaluateOrdered(w, rule, x, vars), ResolveAll(w, rule.operands, vars, rule.valueType);
            (r.Value? <==> e.Value?) && (r.Crash? <==> e.Crash?)
  {
    hide ResolveAll, Less;
  }

  lemma LengthIsDecided(w: World, rule: Rule, vars: Variables, text: string)
    requires Fits(rule) && IsLength(rule.operator)
    ensures var r, n, e := EvaluateLength(w, rule, text, vars), w.graphemes(text), ResolveAll(w, rule.operands, vars, Number);
            && (r.Value? <==> n.Some? && e.Value? && forall k :: 0 <= k < |e.v| ==> IsLengthValue(e.v[k]))
            && (r.Crash? <==> n == None || e.Crash?)
  {
    hide ResolveAll, Less, IsLengthValue;
  }

  lemma TextIsDecided(w: World, rule: Rule, vars: Variables, text: string, b: Budget)
    requires Fits(rule) && rule.valueType.Text? && !IsLength(rule.operator) && !IsUnary(rule.operator)
    ensures var r, e := EvaluateText(w, rule, text, vars, b).0, ResolveAll(w, rule.operands, vars, Text);
            && (r.Value? <==> e.Value? && (rule.operator.Regex? ==> Answered(w, rule, TextOf(e.v[0]), text, b)))
            && (r.Crash? <==> e.Crash?)
  {
    hide ResolveAll, Less, NormalizeAll, ContainsText;
  }

  lemma OperandsAreLengths(w: World, rule: Rule, vars: Variables)
    requires ResolveAll(w, rule.operands, vars, Number).Value?
    ensures var e := ResolveAll(w, rule.operands, vars, Number).v;
            (forall k :: 0 <= k < |e| ==> IsLengthValue(e[k]))
            <==> forall k, v :: 0 <= k < |rule.operands| && StandsFor(w, rule.operands[k], vars, Number, v)
                                ==> v.number >= 0.0 && v.number.Floor as real == v.number
  {
    var e := ResolveAll(w, rule.operands, vars, Number).v;
    OperandsStandFor(w, rule.operands, vars, Number, e);
    hide ResolveAll;
    forall k, v | 0 <= k < |rule.operands| && StandsFor(w, rule.operands[k], vars, Number, v)
      ensures v == e[k] && v.NumberValue?
    {
      assert StandsFor(w, rule.operands[k], vars, Number, e[k]);
    }
  }

  lemma PatternIsFirstOperand(w: World, rule: Rule, vars: Variables)
    requires rule.operands != [] && ResolveAll(w, rule.operands, vars, Text).Value?
    ensures forall v :: StandsFor(w, rule.operands[0], vars, Text, v) <==> v == ResolveAll(w, rule.operands, vars, Text).v[0]
  {
    OperandsStandFor(w, rule.operands, vars, Text, ResolveAll(w, rule.operands, vars, Text).v);
    OperandStandsFor(w, rule.operands[0], vars, Text);
  }

  /** A rule is decided exactly if it can be, and ends the run exactly if it is fatal. */
  lemma RuleIsDecided(w: World, rule: Rule, vars: Variables, b: Budget)
    requires Fits(rule)
    ensures EvaluateRule(w, rule, vars, b).0.Value? <==> Decidable(w, rule, vars, b)
    ensures EvaluateRule(w, rule, vars, b).0.Crash? <==> Fatal(w, rule, vars)
  {
    hide ResolveAll, StandsFor, Stands, LiteralTooFar, EvaluateText, EvaluateLength, EvaluateOrdered, Answered;
    if HasSubject(rule, vars) && !IsUnary(rule.operator) {
      OperandsResolve(w, rule.operands, vars, OperandType(rule));
      OperandsAreFatal(w, rule, vars);
      if !rule.valueType.Text? {
        OrderedIsDecided(w, rule, vars, vars[rule.variable].value);
      } else if IsLength(rule.operator) {
        LengthIsDecided(w, rule, vars, Looked(w, rule, vars));
        if ResolveAll(w, rule.operands, vars, Number).Value? {
          OperandsAreLengths(w, rule, vars);
        }
      } else {
        TextIsDecided(w, rule, vars, Looked(w, rule, vars), b);
        if rule.operator.Regex? && ResolveAll(w, rule.operands, vars, Text).Value? {
          PatternIsFirstOperand(w, rule, vars);
        }
      }
    }
  }

  // ----- branches -----

  /** In strict mode the rule has to be decidable, else only not fatal. */
  ghost predicate Bears(w: World, rule: Rule, strict: bool, vars: Variables, b: Budget) {
    if strict then Decidable(w, rule, vars, b) else !Fatal(w, rule, vars)
  }

  /** Of the rules of a branch, those that are judged - up to the first that decides it - go through. */
  ghost predicate GoesThrough(w: World, rules: seq<Rule>, all: bool, strict: bool, vars: Variables, b: Budget) {
    rules == []
    || (&& Bears(w, rules[0], strict, vars, b)
        && (Says(w, rules[0], vars, b) == all ==>
              GoesThrough(w, rules[1..], all, strict, vars, Charged(w, rules[0], vars, b))))
  }

  /** The rules of a branch are judged to the end, and say what they say, exactly if they go through. */
  lemma {:induction false} RulesGoThrough(w: World, rules: seq<Rule>, all: bool, strict: bool, s: Scratch)
    requires AllFit(rules)
    ensures var (r, s') := EvaluateRules(w, rules, all, all, strict, s);
            && s'.vars == s.vars
            && (r.Value? <==> GoesThrough(w, rules, all, strict, s.vars, s.budget))
            && (r.Value? ==> && (r.v <==> Satisfied(w, rules, all, s.vars, s.budget))
                             && s'.budget == Left(w, rules, all, s.vars, s.budget))
    decreases rules
  {
    hide EvaluateRule, Says, Charged, Satisfied, Decidable, Fatal, Fits;
    if rules == [] {
      NoRules(w, all, s.vars, s.budget);
    } else {
      RuleIsDecided(w, rules[0], s.vars, s.budget);
      RuleSays(w, rules[0], s.vars, s.budget);
      RuleCharges(w, rules[0], s.vars, s.budget);
      SatisfiedFirst(w, rules, all, s.vars, s.budget);
      var (r, b) := EvaluateRule(w, rules[0], s.vars, s.budget);
      RulesGoThrough(w, rules[1..], all, strict, Scratch(s.vars, b, s.notes + [Evaluated(r)]));
    }
  }

  ghost predicate RulesFit(branches: seq<Branch>) {
    forall k :: 0 <= k < |branches| ==> AllFit(branches[k].rules)
  }

  lemma AcceptedRulesFit(g: Grammar, step: Step, past: seq<WellFormed.Prior>)
    requires step.Condition? && WellFormed.ConditionFits(g, step, past)
    ensures RulesFit(step.branches)
  {
    hide WellFormed.Known, WellFormed.ExtractsFit, WellFormed.Consistent;
    var known := WellFormed.Known(past) + WellFormed.Named(step.extracts);
    forall k, j | 0 <= k < |step.branches| && 0 <= j < |step.branches[k].rules|
      ensures Fits(step.branches[k].rules[j])
    {
      assert WellFormed.RuleFits(g, step.branches[k].rules[j], known);
    }
  }

  /** Branch `k` is the first match, and all branches up to it go through. */
  ghost predicate Reached(w: World, branches: seq<Branch>, strict: bool, vars: Variables, b: Budget, k: nat) {
    && FirstMatch(w, branches, vars, b, k)
    && forall j: nat :: j <= k && !branches[j].kind.Else? ==> Through(w, branches, strict, vars, b, j)
  }

  ghost predicate Through(w: World, branches: seq<Branch>, strict: bool, vars: Variables, b: Budget, j: nat)
    requires j < |branches|
  {
    GoesThrough(w, branches[j].rules, branches[j].all, strict, vars, BranchBudget(w, branches, vars, b, j))
  }

  lemma ReachedLater(w: World, branches: seq<Branch>, strict: bool, vars: Variables, b: Budget, k: nat)
    requires branches != [] && !Matched(w, branches, vars, b, 0) && Through(w, branches, strict, vars, b, 0)
    ensures Reached(w, branches, strict, vars, b, k + 1)
            <==> Reached(w, branches[1..], strict, vars, Left(w, branches[0].rules, branches[0].all, vars, b), k)
  {
    var rest, b' := branches[1..], Left(w, branches[0].rules, branches[0].all, vars, b);
    forall j: nat | 0 < j < |branches|
      ensures Through(w, branches, strict, vars, b, j) <==> Through(w, rest, strict, vars, b', j - 1)
      ensures Matched(w, branches, vars, b, j) <==> Matched(w, rest, vars, b', j - 1)
    {
      MatchedLater(w, branches, vars, b, j);
      assert rest[j - 1] == branches[j];
    }
    hide Through, Matched, Left;
    if Reached(w, branches, strict, vars, b, k + 1) {
      forall j: nat | j < k
        ensures !Matched(w, rest, vars, b', j)
      {
        var later := j + 1;
        assert !Matched(w, branches, vars, b, later);
      }
      forall j: nat | j <= k && !rest[j].kind.Else?
        ensures Through(w, rest, strict, vars, b', j)
      {
        var later := j + 1;
        assert rest[j] == branches[later];
        assert Through(w, branches, strict, vars, b, later);
      }
    }
  }

  lemma {:induction false} BranchIsReached(w: World, branches: seq<Branch>, index: nat, strict: bool, s: Scratch, k: nat)
    requires RulesFit(branches)
    ensures SelectFrom(w, branches, index, strict, s).0 == Value(index + k)
            <==> Reached(w, branches, strict, s.vars, s.budget, k)
    decreases branches
  {
    hide EvaluateRules, GoesThrough, Satisfied, AllFit, Left;
    if branches == [] {
    } else if branches[0].kind.Else? {
      assert Matched(w, branches, s.vars, s.budget, 0);
    } else {
      var (m, s') := EvaluateRules(w, branches[0].rules, branches[0].all, branches[0].all, strict, s);
      RulesGoThrough(w, branches[0].rules, branches[0].all, strict, s);
      assert m.Value? <==> Through(w, branches, strict, s.vars, s.budget, 0);
      assert m.Value? ==> (m.v <==> Matched(w, branches, s.vars, s.budget, 0));
      if m == Value(false) {
        if k > 0 {
          ReachedLater(w, branches, strict, s.vars, s.budget, k - 1);
          BranchIsReached(w, branches[1..], index + 1, strict, s', k - 1);
        }
      } else if m == Value(true) {
      } else {
        var first: nat := 0;
        assert !Through(w, branches, strict, s.vars, s.budget, first);
      }
    }
  }

  /**
   * A condition selects branch `k` exactly if its extractions are bearable, `k` is the first branch that
   * is an else branch or whose rules hold, and everything judged before that goes through. It reads the
   * last message, and starts with the whole budget of a condition.
   */
  lemma ConditionSelects(w: World, step: Step, st: State, k: nat)
    requires step.Condition? && RulesFit(step.branches)
    ensures var input, b, vars := Input(st.lastText, st.lastMetadata), Budget(200000, st.tick), Selection(w, step, st).1.vars;
            Selection(w, step, st).0 == Value(k)
            <==> && Bearable(w, step.extracts, step.strict, input, b)
                 && Reached(w, step.branches, step.strict, vars, SpentBefore(w, step.extracts, input, b, |step.extracts|), k)
  {
    hide ExtractAll, SelectFrom, Bearable, Reached, RulesFit, SpentBefore;
    var input := Input(st.lastText, st.lastMetadata);
    ExtractionsGoThrough(w, step.extracts, step.strict, input, ScratchOf(st));
    var (r, s) := ExtractAll(w, step.extracts, step.strict, input, ScratchOf(st));
    if r.Value? {
      BranchIsReached(w, step.branches, 0, step.strict, s, k);
      SelectingKeepsVariables(w, step.branches, 0, step.strict, s);
    }
  }

  lemma {:induction false} SelectingKeepsVariables(w: World, branches: seq<Branch>, index: nat, strict: bool, s: Scratch)
    ensures SelectFrom(w, branches, index, strict, s).1.vars == s.vars
    decreases branches
  {
    hide EvaluateRules;
    if branches != [] && !branches[0].kind.Else? {
      JudgingKeepsVariables(w, branches[0].rules, branches[0].all, branches[0].all, strict, s);
      var (m, s') := EvaluateRules(w, branches[0].rules, branches[0].all, branches[0].all, strict, s);
      if m == Value(false) {
        SelectingKeepsVariables(w, branches[1..], index + 1, strict, s');
      }
    }
  }

  lemma {:induction false} JudgingKeepsVariables(w: World, rules: seq<Rule>, all: bool, matched: bool, strict: bool, s: Scratch)
    ensures EvaluateRules(w, rules, all, matched, strict, s).1.vars == s.vars
    decreases rules
  {
    hide EvaluateRule;
    if rules != [] {
      var (r, b) := EvaluateRule(w, rules[0], s.vars, s.budget);
      JudgingKeepsVariables(w, rules[1..], all, all, strict, Scratch(s.vars, b, s.notes + [Evaluated(r)]));
    }
  }
}
