/**
 * What a well-formed workflow is, without reference to how it is checked: conditions on every step of
 * the tree and on what precedes it. `Acceptance` proves that the checker accepts exactly these.
 */
module WellFormed {
  import opened Wrappers
  import opened Workflow

  /** What precedes a step on some way to it: a step passed, a condition entered, the start of a legacy branch. */
  datatype Prior = Passed(step: Step) | Entered(extracts: seq<Extraction>) | LegacyStart

  type Names = set<(string, ValueType)>

  // ----- variables that may be set -----

  /** The variables that some extractions set, with their types. */
  function Named(extracts: seq<Extraction>): Names {
    if extracts == [] then {} else {(extracts[0].name, extracts[0].valueType)} + Named(extracts[1..])
  }

  /** The variables that extractions anywhere in a step may set; those of legacy conditions stay inside. */
  function Declares(step: Step): Names
    decreases step, 1
  {
    match step
    case Extract(_, _, _, _, e) => {(e.name, e.valueType)}
    case Condition(_, true, _, extracts, branches) => Named(extracts) + BranchesDeclare(branches)
    case _ => {}
  }

  function StepsDeclare(steps: seq<Step>): Names
    decreases steps, 0
  {
    if steps == [] then {} else Declares(steps[0]) + StepsDeclare(steps[1..])
  }

  function BranchesDeclare(branches: seq<Branch>): Names
    decreases branches, 0
  {
    if branches == [] then {} else StepsDeclare(branches[0].steps) + BranchesDeclare(branches[1..])
  }

  function PriorDeclares(p: Prior): Names {
    match p
    case Passed(step) => Declares(step)
    case Entered(extracts) => Named(extracts)
    case LegacyStart => {}
  }

  /** The variables that may be set once all of this has passed. */
  function Known(past: seq<Prior>): Names {
    if past == [] then {} else Known(past[..|past| - 1]) + PriorDeclares(past[|past| - 1])
  }

  /** No name with two types. */
  ghost predicate Consistent(names: Names) {
    forall n, t, u :: (n, t) in names && (n, u) in names ==> t == u
  }

  ghost predicate IsKnown(names: Names, n: string) { exists t :: (n, t) in names }

  // ----- waits that have certainly happened -----

  /** A step that waits for a message, whatever branches are taken; legacy conditions do not count. */
  predicate Waits(step: Step)
    decreases step, 1
  {
    step.Wait? || (step.Condition? && step.version2 && BranchesWait(step.branches))
  }

  predicate StepsWait(steps: seq<Step>)
    decreases steps, 0
  {
    steps != [] && (Waits(steps[0]) || StepsWait(steps[1..]))
  }

  predicate BranchesWait(branches: seq<Branch>)
    decreases branches, 0
  {
    branches == [] || (StepsWait(branches[0].steps) && BranchesWait(branches[1..]))
  }

  /** A legacy branch takes a wait for granted. */
  predicate HasWaited(past: seq<Prior>) {
    past != [] &&
    (HasWaited(past[..|past| - 1])
     || match past[|past| - 1]
        case Passed(step) => Waits(step)
        case Entered(_) => false
        case LegacyStart => true)
  }

  // ----- nesting -----

  function Deeper(a: nat, b: nat): nat { if a < b then b else a }

  function Depth(steps: seq<Step>): nat
    decreases steps, 0
  {
    if steps == [] then 0 else Deeper(StepDepth(steps[0]), Depth(steps[1..]))
  }

  function StepDepth(step: Step): nat
    decreases step, 1
  {
    if step.Condition? then 1 + BranchesDepth(step.branches) else 0
  }

  function BranchesDepth(branches: seq<Branch>): nat
    decreases branches, 0
  {
    if branches == [] then 0 else Deeper(Depth(branches[0].steps), BranchesDepth(branches[1..]))
  }

  // ----- single steps -----

  /** The texts of a step in which variables may be named. */
  function Texts(step: Step): seq<string> {
    match step
    case Send(_, FixedText(text)) => [text]
    case Send(_, Manual(messages)) => messages
    case Send(_, Group(_)) => []
    case Wait(_, _, matchers) => matchers
    case Click(_, texts, _, _) => texts
    case Http(_, url, headers, body, _) => [url] + headers + (if body.Some? then [body.value] else [])
    case Extract(_, _, _, _, _) => []
    case Condition(_, _, _, _, _) => []
  }

  /** The step names this variable in a text. */
  ghost predicate Mentions(g: Grammar, step: Step, n: string) {
    exists k :: 0 <= k < |Texts(step)| && n in g.templateNames(Texts(step)[k])
  }

  /** An extraction that could be made, whatever is known before it. */
  predicate Extractable(g: Grammar, e: Extraction) {
    && g.validName(e.name)
    && (e.fromMetadata <==> e.mode.MetadataMode?)
    && (if e.fromMetadata then e.field.Some? && g.isMetadata(e.field.value) else e.field.None?)
    && (e.mode.FirstNumber? ==> e.valueType.Number?)
    && (if !e.mode.RegexCapture? then e.pattern.None? && e.group.None? && e.regex.None?
        else
          && e.pattern.Some? && 1 <= |e.pattern.value| <= 500
          && g.compiles(e.pattern.value, if e.regex.Some? then e.regex.value else RegexConfig(false, false, false))
          && (e.group.Some? ==> |e.group.value| >= 1))
  }

  /** The extraction that an extract step stands for; of a response only name and type matter. */
  function Effective(step: Step): Extraction
    requires step.Extract?
  {
    var e := step.extraction;
    if !step.source.WaitText? then Extraction(e.name, false, None, WholeText, e.valueType, None, None, None)
    else if e.mode.MetadataMode? then e.(fromMetadata := true)
    else e
  }

  /** A step other than a condition, looked at alone. */
  predicate Shaped(g: Grammar, step: Step) {
    match step
    case Send(_, FixedText(text)) => g.validText(text)
    case Send(_, Manual(messages)) => |messages| >= 1 && forall k :: 0 <= k < |messages| ==> g.validText(messages[k])
    case Send(_, Group(id)) => |id| >= 1
    case Wait(_, timeout, _) => timeout > 0
    case Click(_, texts, row, column) =>
      || (|texts| == 1 && row.None? && column.None?)
      || (|texts| == 0 && row.Some? && column.Some? && row.value >= 0 && column.value >= 0)
    case Http(_, url, _, _, timeout) => |url| >= 1 && timeout > 0
    case Extract(_, _, _, _, _) => Extractable(g, Effective(step))
    case Condition(_, _, _, _, _) => false
  }

  /** Every variable that it names may have been set, and the one that it sets has not been. */
  ghost predicate StepFits(g: Grammar, step: Step, known: Names) {
    && Shaped(g, step)
    && (forall n :: Mentions(g, step, n) ==> IsKnown(known, n))
    && (step.Extract? ==> !IsKnown(known, step.extraction.name))
  }

  // ----- conditions -----

  function LENGTHS(): set<Operator> { {LengthEq, LengthNe, LengthGt, LengthGte, LengthLt, LengthLte, LengthBetween} }

  /** The operators for each type of value. */
  function Operators(t: ValueType): set<Operator> {
    match t
    case Text =>
      {Exact, NotExact, Contains, Regex, StartsWith, EndsWith, In, Exists, Empty, NotEmpty} + LENGTHS()
    case Number => {Gt, Gte, Lt, Lte, Eq, Ne, Between, In, Exists}
    case Datetime => {Before, BeforeOrEqual, After, AfterOrEqual, Eq, Ne, Between, In, Exists}
  }

  predicate TakesOperands(op: Operator, n: nat) {
    match op
    case Exists | Empty | NotEmpty => n == 0
    case Between | LengthBetween => n == 2
    case In => n >= 1
    case _ => n == 1
  }

  /** A rule about a variable of its type, with operands that are literals or variables of the type it takes. */
  predicate RuleFits(g: Grammar, rule: Rule, known: Names) {
    && (rule.variable, rule.valueType) in known
    && rule.operator in Operators(rule.valueType)
    && TakesOperands(rule.operator, |rule.operands|)
    && (forall k :: 0 <= k < |rule.operands| && rule.operands[k].Reference? ==>
          (rule.operands[k].name, if rule.operator in LENGTHS() then Number else rule.valueType) in known)
    && (if !rule.operator.Regex? then rule.regex.None?
        else
          rule.operands[0].Literal? ==>
            && 1 <= |rule.operands[0].value| <= 500
            && g.compiles(rule.operands[0].value, if rule.regex.Some? then rule.regex.value else RegexConfig(false, false, false)))
  }

  /** A first branch `if`, a last branch `else` without rules, and `else if` in between. */
  predicate BranchesFit(g: Grammar, branches: seq<Branch>, known: Names) {
    && 2 <= |branches| <= 20
    && forall k :: 0 <= k < |branches| ==>
         && branches[k].kind == (if k == 0 then If else if k == |branches| - 1 then Else else ElseIf)
         && (if branches[k].kind.Else? then branches[k].rules == []
             else
               && 1 <= |branches[k].rules| <= 10
               && forall j :: 0 <= j < |branches[k].rules| ==> RuleFits(g, branches[k].rules[j], known))
  }

  /** The extractions of a condition: they need a message, and set variables that have not been set. */
  ghost predicate ExtractsFit(g: Grammar, extracts: seq<Extraction>, past: seq<Prior>) {
    && |extracts| <= 10 && (extracts != [] ==> HasWaited(past))
    && (forall k :: 0 <= k < |extracts| ==> Extractable(g, extracts[k]) && !IsKnown(Known(past), extracts[k].name))
    && (forall j, k :: 0 <= j < k < |extracts| ==> extracts[j].name != extracts[k].name)
  }

  ghost predicate ConditionFits(g: Grammar, step: Step, past: seq<Prior>)
    requires step.Condition?
  {
    var known := Known(past) + Named(step.extracts);
    && step.nodeId.Some?
    && ExtractsFit(g, step.extracts, past)
    && BranchesFit(g, step.branches, known)
    && Consistent(known + BranchesDeclare(step.branches))
  }

  /** Of a legacy condition, whose rules are not looked at. */
  predicate LegacyFits(step: Step)
    requires step.Condition?
  {
    && 2 <= |step.branches| <= 20
    && step.branches[0].kind.If? && step.branches[|step.branches| - 1].kind.Else?
    && forall k :: 0 <= k < |step.branches| && !step.branches[k].kind.Else? ==> 1 <= |step.branches[k].rules| <= 10
  }

  // ----- every step, at any depth -----

  /** Every step fits what precedes it; each branch of a legacy condition is on its own. */
  ghost predicate Fit(g: Grammar, steps: seq<Step>, past: seq<Prior>)
    decreases steps, 0
  {
    steps == [] || (FitsHere(g, steps[0], past) && Fit(g, steps[1..], past + [Passed(steps[0])]))
  }

  ghost predicate FitsHere(g: Grammar, step: Step, past: seq<Prior>)
    decreases step, 1
  {
    if !step.Condition? then StepFits(g, step, Known(past))
    else if step.version2 then
      ConditionFits(g, step, past) && FitBranches(g, step.branches, past + [Entered(step.extracts)])
    else LegacyFits(step) && FitBranches(g, step.branches, [LegacyStart])
  }

  ghost predicate FitBranches(g: Grammar, branches: seq<Branch>, past: seq<Prior>)
    decreases branches, 0
  {
    branches == [] || (Fit(g, branches[0].steps, past) && FitBranches(g, branches[1..], past))
  }

  // ----- data sources -----

  datatype Kind = Request | Reception

  function KindOf(step: Step): Option<Kind> {
    if step.Http? then Some(Request) else if step.Wait? then Some(Reception) else None
  }

  /** A step of this kind is certainly executed, whatever branches are taken. */
  predicate Executes(step: Step, kind: Kind)
    decreases step, 1
  {
    KindOf(step) == Some(kind) || (step.Condition? && AllExecute(step.branches, kind))
  }

  predicate SomeExecutes(steps: seq<Step>, kind: Kind)
    decreases steps, 0
  {
    steps != [] && (Executes(steps[0], kind) || SomeExecutes(steps[1..], kind))
  }

  predicate AllExecute(branches: seq<Branch>, kind: Kind)
    decreases branches, 0
  {
    branches == [] || (SomeExecutes(branches[0].steps, kind) && AllExecute(branches[1..], kind))
  }

  /** The data source of an extraction certainly precedes it: the step it names, or any of its kind. */
  predicate SourcePrecedes(step: Step, past: seq<Step>)
    requires step.Extract?
  {
    var kind := if step.source.WaitText? then Reception else Request;
    if step.sourceNodeId == "" then exists k :: 0 <= k < |past| && Executes(past[k], kind)
    else exists k :: 0 <= k < |past| && KindOf(past[k]) == Some(kind) && past[k].nodeId == Some(step.sourceNodeId)
  }

  /** So it is for every extraction; `past` are the steps that precede on every way. */
  predicate Sourced(steps: seq<Step>, past: seq<Step>)
    decreases steps, 0
  {
    steps == [] || (SourcedHere(steps[0], past) && Sourced(steps[1..], past + [steps[0]]))
  }

  predicate SourcedHere(step: Step, past: seq<Step>)
    decreases step, 1
  {
    match step
    case Extract(_, _, _, _, _) => SourcePrecedes(step, past)
    case Condition(_, _, _, _, branches) => SourcedBranches(branches, past)
    case _ => true
  }

  predicate SourcedBranches(branches: seq<Branch>, past: seq<Step>)
    decreases branches, 0
  {
    branches == [] || (Sourced(branches[0].steps, past) && SourcedBranches(branches[1..], past))
  }

  // ----- workflows -----

  predicate IdsFit(ids: set<string>) { forall id :: id in ids ==> 1 <= |id| <= 100 }

  /** The node ids of a workflow, each as often as it occurs. */
  function Occurrences(steps: seq<Step>): multiset<string>
    decreases steps, 0
  {
    if steps == [] then multiset{} else StepOccurrences(steps[0]) + Occurrences(steps[1..])
  }

  function StepOccurrences(step: Step): multiset<string>
    decreases step, 1
  {
    (if step.nodeId.Some? then multiset{step.nodeId.value} else multiset{})
    + if step.Condition? then BranchOccurrences(step.branches) else multiset{}
  }

  function BranchOccurrences(branches: seq<Branch>): multiset<string>
    decreases branches, 0
  {
    if branches == [] then multiset{} else Occurrences(branches[0].steps) + BranchOccurrences(branches[1..])
  }

  /** Node ids of 1 to 100 characters, each once; conditions nested at most three deep; every step fits. */
  ghost predicate WellFormedWorkflow(g: Grammar, steps: seq<Step>) {
    && steps != []
    && (forall id :: id in Occurrences(steps) ==> 1 <= |id| <= 100 && Occurrences(steps)[id] == 1)
    && Depth(steps) <= 3
    && Fit(g, steps, [])
    && Sourced(steps, [])
  }
}
