/**
 * The static checks of a workflow: variable scopes and types, waits, node ids, and the data sources
 * that are available on every path. `None` stands for a rejected workflow.
 */
module Checker {
  import opened Wrappers
  import opened Workflow

  type Types = map<string, ValueType>

  /** Variables that are certainly and possibly set, and whether a wait has certainly happened. */
  datatype Scope = Scope(definite: Types, possible: Types, hasWait: bool)

  datatype Checked = Checked(scope: Scope, ids: set<string>)

  const MAX_DEPTH: nat := 3

  // ----- leaf checks -----

  function CheckNodeId(id: Option<string>, ids: set<string>): Option<set<string>> {
    if id == None then Some(ids)
    else if 1 <= |id.value| <= 100 && id.value !in ids then Some(ids + {id.value})
    else None
  }

  predicate TemplateOk(g: Grammar, text: string, possible: Types) { g.templateNames(text) <= possible.Keys }

  predicate TemplatesOk(g: Grammar, texts: seq<string>, possible: Types) {
    forall k :: 0 <= k < |texts| ==> TemplateOk(g, texts[k], possible)
  }

  predicate OperandOk(operand: Operand, t: ValueType, possible: Types) {
    operand.Reference? ==> operand.name in possible && possible[operand.name] == t
  }

  predicate OperandCountOk(op: Operator, n: nat) {
    if IsUnary(op) then n == 0 else if IsBetween(op) then n == 2 else if op.In? then n >= 1 else n == 1
  }

  predicate RuleOk(g: Grammar, rule: Rule, possible: Types) {
    && rule.variable in possible && possible[rule.variable] == rule.valueType
    && Allowed(rule.valueType, rule.operator)
    && OperandCountOk(rule.operator, |rule.operands|)
    && (forall k :: 0 <= k < |rule.operands| ==>
          OperandOk(rule.operands[k], if IsLength(rule.operator) then Number else rule.valueType, possible))
    && (rule.operator.Regex? && rule.operands[0].Literal? ==>
          && 0 < |rule.operands[0].value| <= MAX_PATTERN
          && g.compiles(rule.operands[0].value, rule.regex.GetOr(RegexConfig(false, false, false))))
    && (!rule.operator.Regex? ==> rule.regex == None)
  }

  predicate ExtractOk(g: Grammar, e: Extraction, declared: Types, possible: Types) {
    && g.validName(e.name) && e.name !in possible && e.name !in declared
    && (if e.fromMetadata then e.field.Some? && g.isMetadata(e.field.value) && e.mode.MetadataMode?
        else !e.mode.MetadataMode? && e.field == None)
    && (e.mode.FirstNumber? ==> e.valueType == Number)
    && (if e.mode.RegexCapture? then
          && e.pattern.Some? && 0 < |e.pattern.value| <= MAX_PATTERN
          && (e.group.Some? ==> e.group.value != [])
          && g.compiles(e.pattern.value, e.regex.GetOr(RegexConfig(false, false, false)))
        else e.pattern == None && e.group == None && e.regex == None)
  }

  /** What an extract step declares: HTTP sources share only name and type with message extraction. */
  function Declared(step: Step): Extraction
    requires step.Extract?
  {
    if step.source.WaitText? then
      step.extraction.(fromMetadata := step.extraction.mode.MetadataMode? || step.extraction.fromMetadata)
    else Extraction(step.extraction.name, false, None, WholeText, step.extraction.valueType, None, None, None)
  }

  function Declare(g: Grammar, extracts: seq<Extraction>, declared: Types, possible: Types): Option<Types> {
    if extracts == [] then Some(declared)
    else if !ExtractOk(g, extracts[0], declared, possible) then None
    else Declare(g, extracts[1..], declared[extracts[0].name := extracts[0].valueType], possible)
  }

  predicate PlainStepOk(g: Grammar, step: Step, possible: Types)
    requires !step.Condition?
  {
    match step
    case Send(_, message) =>
      (match message
       case FixedText(text) => g.validText(text) && TemplateOk(g, text, possible)
       case Manual(messages) =>
         messages != [] && (forall k :: 0 <= k < |messages| ==> g.validText(messages[k]))
         && TemplatesOk(g, messages, possible)
       case Group(groupId) => groupId != "")
    case Wait(_, timeout, matchers) => timeout >= 1 && TemplatesOk(g, matchers, possible)
    case Click(_, texts, row, column) =>
      && (row.Some? <==> column.Some?)
      && |texts| + (if row.Some? then 1 else 0) == 1
      && TemplatesOk(g, texts, possible)
      && (row.Some? ==> row.value >= 0 && column.value >= 0)
    case Http(_, url, headers, body, timeout) =>
      && url != "" && timeout >= 1
      && TemplateOk(g, url, possible) && TemplatesOk(g, headers, possible)
      && (body.Some? ==> TemplateOk(g, body.value, possible))
    case Extract(_, _, _, _, _) => ExtractOk(g, Declared(step), map[], possible)
  }

  function PlainScope(step: Step, s: Scope): Scope
    requires !step.Condition?
  {
    match step
    case Wait(_, _, _) => s.(hasWait := true)
    case Extract(_, _, _, _, e) =>
      s.(definite := s.definite[e.name := e.valueType], possible := s.possible[e.name := e.valueType])
    case _ => s
  }

  // ----- merging branches -----

  /** Union of the branches' possible variables, unless two give one name different types. */
  function MergePossible(scopes: seq<Scope>, merged: Types): Option<Types> {
    if scopes == [] then Some(merged)
    else if exists name :: name in scopes[0].possible && name in merged && scopes[0].possible[name] != merged[name] then
      None
    else MergePossible(scopes[1..], merged + scopes[0].possible)
  }

  function CommonDefinite(scopes: seq<Scope>): set<string>
    requires scopes != []
  {
    if |scopes| == 1 then scopes[0].definite.Keys else scopes[0].definite.Keys * CommonDefinite(scopes[1..])
  }

  lemma {:induction false} CommonDefiniteIn(scopes: seq<Scope>, k: nat)
    requires k < |scopes|
    ensures CommonDefinite(scopes) <= scopes[k].definite.Keys
  {
    if |scopes| > 1 && k > 0 {
      CommonDefiniteIn(scopes[1..], k - 1);
    }
  }

  function Merge(scopes: seq<Scope>): Option<Scope>
    requires scopes != []
  {
    match MergePossible(scopes, map[])
    case None => None
    case Some(possible) =>
      CommonDefiniteIn(scopes, 0);
      Some(Scope(map name | name in CommonDefinite(scopes) :: scopes[0].definite[name], possible,
                 forall k :: 0 <= k < |scopes| ==> scopes[k].hasWait))
  }

  // ----- sequences and conditions -----

  predicate BranchRulesOk(g: Grammar, branch: Branch, possible: Types) {
    if branch.kind.Else? then branch.rules == []
    else 1 <= |branch.rules| <= 10 && forall k :: 0 <= k < |branch.rules| ==> RuleOk(g, branch.rules[k], possible)
  }

  function ExpectedKind(index: nat, count: nat): BranchKind {
    if index == 0 then If else if index + 1 == count then Else else ElseIf
  }

  function CheckSteps(g: Grammar, steps: seq<Step>, depth: nat, s: Scope, ids: set<string>): Option<Checked>
    decreases steps, 0
  {
    if steps == [] then Some(Checked(s, ids))
    else
      match CheckStep(g, steps[0], depth, s, ids)
      case None => None
      case Some(c) => CheckSteps(g, steps[1..], depth, c.scope, c.ids)
  }

  function CheckStep(g: Grammar, step: Step, depth: nat, s: Scope, ids: set<string>): Option<Checked>
    decreases step, 1
  {
    if step.Condition? then
      if depth + 1 > MAX_DEPTH then None
      else if step.version2 then CheckVersion2(g, step, depth + 1, s, ids)
      else CheckLegacy(g, step, depth + 1, s, ids)
    else
      match CheckNodeId(step.nodeId, ids)
      case None => None
      case Some(ids') => if PlainStepOk(g, step, s.possible) then Some(Checked(PlainScope(step, s), ids')) else None
  }

  function CheckVersion2(g: Grammar, step: Step, depth: nat, s: Scope, ids: set<string>): Option<Checked>
    requires step.Condition?
    decreases step, 0
  {
    if step.nodeId == None || CheckNodeId(step.nodeId, ids) == None then None
    else if |step.extracts| > 10 || (step.extracts != [] && !s.hasWait) then None
    else
      match Declare(g, step.extracts, map[], s.possible)
      case None => None
      case Some(declared) =>
        if !(2 <= |step.branches| <= 20) then None
        else
          var inner := Scope(s.definite + declared, s.possible + declared, s.hasWait);
          match CheckBranches(g, step.branches, 0, |step.branches|, depth, inner, CheckNodeId(step.nodeId, ids).value)
          case None => None
          case Some((scopes, ids')) =>
            match Merge(scopes)
            case None => None
            case Some(merged) => Some(Checked(merged, ids'))
  }

  function CheckBranches(g: Grammar, branches: seq<Branch>, index: nat, count: nat, depth: nat, s: Scope,
                         ids: set<string>)
    : (r: Option<(seq<Scope>, set<string>)>)
    ensures r.Some? ==> |r.value.0| == |branches|
    decreases branches, 0
  {
    if branches == [] then Some(([], ids))
    else if branches[0].kind != ExpectedKind(index, count) || !BranchRulesOk(g, branches[0], s.possible) then None
    else
      match CheckSteps(g, branches[0].steps, depth, s, ids)
      case None => None
      case Some(c) =>
        match CheckBranches(g, branches[1..], index + 1, count, depth, s, c.ids)
        case None => None
        case Some((scopes, ids')) => Some(([c.scope] + scopes, ids'))
  }

  /** Branches of a legacy condition are checked in an empty scope, and what they declare is dropped. */
  function CheckLegacy(g: Grammar, step: Step, depth: nat, s: Scope, ids: set<string>): Option<Checked>
    requires step.Condition?
    decreases step, 0
  {
    if CheckNodeId(step.nodeId, ids) == None || !(2 <= |step.branches| <= 20) then None
    else if !step.branches[0].kind.If? || !step.branches[|step.branches| - 1].kind.Else? then None
    else
      match CheckLegacyBranches(g, step.branches, depth, CheckNodeId(step.nodeId, ids).value)
      case None => None
      case Some(ids') => Some(Checked(s, ids'))
  }

  function CheckLegacyBranches(g: Grammar, branches: seq<Branch>, depth: nat, ids: set<string>): Option<set<string>>
    decreases branches, 0
  {
    if branches == [] then Some(ids)
    else if !branches[0].kind.Else? && !(1 <= |branches[0].rules| <= 10) then None
    else
      match CheckSteps(g, branches[0].steps, depth, Scope(map[], map[], true), ids)
      case None => None
      case Some(c) => CheckLegacyBranches(g, branches[1..], depth, c.ids)
  }

  // ----- data sources -----

  datatype SourceKind = HttpKind | WaitKind

  /** The data sources that every path to this point has filled. */
  datatype Sources = Sources(nodes: map<string, SourceKind>, kinds: set<SourceKind>)

  function SourceOf(source: Source): SourceKind { if source.WaitText? then WaitKind else HttpKind }

  function Filled(s: Sources, id: Option<string>, kind: SourceKind): Sources {
    Sources(if id.Some? && id.value != "" then s.nodes[id.value := kind] else s.nodes, s.kinds + {kind})
  }

  predicate SourceAvailable(s: Sources, step: Step)
    requires step.Extract?
  {
    if step.sourceNodeId != "" then
      step.sourceNodeId in s.nodes && s.nodes[step.sourceNodeId] == SourceOf(step.source)
    else SourceOf(step.source) in s.kinds
  }

  function CommonNodes(results: seq<Sources>): set<string>
    requires results != []
  {
    if |results| == 1 then results[0].nodes.Keys else results[0].nodes.Keys * CommonNodes(results[1..])
  }

  function CommonKinds(results: seq<Sources>): set<SourceKind>
    requires results != []
  {
    if |results| == 1 then results[0].kinds else results[0].kinds * CommonKinds(results[1..])
  }

  lemma {:induction false} CommonIn(results: seq<Sources>, k: nat)
    requires k < |results|
    ensures CommonNodes(results) <= results[k].nodes.Keys && CommonKinds(results) <= results[k].kinds
  {
    if |results| > 1 && k > 0 {
      CommonIn(results[1..], k - 1);
    }
  }

  /** The kind of a common node is read off the first branch. */
  function Common(results: seq<Sources>): Sources
    requires results != []
  {
    CommonIn(results, 0);
    Sources(map id | id in CommonNodes(results) :: results[0].nodes[id], CommonKinds(results))
  }

  function CheckSources(steps: seq<Step>, s: Sources): Option<Sources>
    decreases steps, 0
  {
    if steps == [] then Some(s)
    else
      match CheckStepSources(steps[0], s)
      case None => None
      case Some(s') => CheckSources(steps[1..], s')
  }

  function CheckStepSources(step: Step, s: Sources): Option<Sources>
    decreases step, 1
  {
    match step
    case Condition(_, _, _, _, branches) =>
      if branches == [] then None
      else
        (match CheckBranchSources(branches, s)
         case None => None
         case Some(results) => Some(Common(results)))
    case Wait(id, _, _) => Some(Filled(s, id, WaitKind))
    case Http(id, _, _, _, _) => Some(Filled(s, id, HttpKind))
    case Extract(_, _, _, _, _) => if SourceAvailable(s, step) then Some(s) else None
    case _ => Some(s)
  }

  function CheckBranchSources(branches: seq<Branch>, s: Sources): (r: Option<seq<Sources>>)
    ensures r.Some? ==> |r.value| == |branches|
    decreases branches, 0
  {
    if branches == [] then Some([])
    else
      match CheckSources(branches[0].steps, s)
      case None => None
      case Some(first) =>
        match CheckBranchSources(branches[1..], s)
        case None => None
        case Some(rest) => Some([first] + rest)
  }

  // ----- acceptance -----

  const EMPTY_SCOPE := Scope(map[], map[], false)

  const NO_SOURCES := Sources(map[], {})

  predicate Accepts(g: Grammar, steps: seq<Step>) {
    && steps != []
    && CheckSteps(g, steps, 0, EMPTY_SCOPE, {}).Some?
    && CheckSources(steps, NO_SOURCES).Some?
  }
}
