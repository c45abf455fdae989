/**
 * The workflow language: steps, nested conditions, rules and extractions.
 *
 * A legacy condition is kept in the form that the executor normalizes it to, marked by
 * `version2 == false`. Lexical questions (identifiers, regular expressions, template tokens,
 * metadata fields, message texts) are answered by a `Grammar`.
 */
module Workflow {
  import opened Wrappers

  datatype ValueType = Text | Number | Datetime

  datatype Operator =
    | Exact | NotExact | Contains | Regex | StartsWith | EndsWith
    | LengthEq | LengthNe | LengthGt | LengthGte | LengthLt | LengthLte | LengthBetween
    | In | Exists | Empty | NotEmpty
    | Gt | Gte | Lt | Lte | Eq | Ne | Between
    | Before | BeforeOrEqual | After | AfterOrEqual
    | Other(name: string)

  datatype Normalization = Normalization(trim: bool, ignoreCase: bool, collapse: bool, stripMarkdown: bool)

  datatype RegexConfig = RegexConfig(ignoreCase: bool, multiline: bool, full: bool)

  datatype Operand = Literal(value: string) | Reference(name: string)

  datatype Rule = Rule(variable: string, valueType: ValueType, operator: Operator, operands: seq<Operand>,
                       normalization: Normalization, regex: Option<RegexConfig>)

  datatype Mode = WholeText | FirstNumber | RegexCapture | MetadataMode

  datatype Extraction = Extraction(name: string, fromMetadata: bool, field: Option<string>, mode: Mode,
                                   valueType: ValueType, pattern: Option<string>, group: Option<string>,
                                   regex: Option<RegexConfig>)

  datatype Source = HttpBody | HttpStatus | HttpHeaders | WaitText

  datatype Message = FixedText(text: string) | Manual(messages: seq<string>) | Group(groupId: string)

  datatype BranchKind = If | ElseIf | Else

  datatype Branch = Branch(kind: BranchKind, all: bool, rules: seq<Rule>, steps: seq<Step>)

  datatype Step =
    | Send(nodeId: Option<string>, message: Message)
    | Wait(nodeId: Option<string>, timeout: int, matchers: seq<string>)
    | Click(nodeId: Option<string>, texts: seq<string>, row: Option<int>, column: Option<int>)
    | Http(nodeId: Option<string>, url: string, headers: seq<string>, body: Option<string>, timeout: int)
    | Extract(nodeId: Option<string>, source: Source, sourceNodeId: string, path: string, extraction: Extraction)
    | Condition(nodeId: Option<string>, version2: bool, strict: bool, extracts: seq<Extraction>, branches: seq<Branch>)

  datatype Grammar = Grammar(validName: string -> bool, compiles: (string, RegexConfig) -> bool,
                             templateNames: string -> set<string>, isMetadata: string -> bool,
                             validText: string -> bool)

  const MAX_PATTERN: nat := 500

  predicate IsUnary(op: Operator) { op.Exists? || op.Empty? || op.NotEmpty? }

  predicate IsBetween(op: Operator) { op.Between? || op.LengthBetween? }

  predicate IsLength(op: Operator) {
    op.LengthEq? || op.LengthNe? || op.LengthGt? || op.LengthGte? || op.LengthLt? || op.LengthLte? || op.LengthBetween?
  }

  predicate IsText(op: Operator) {
    || op.Exact? || op.NotExact? || op.Contains? || op.Regex? || op.StartsWith? || op.EndsWith?
    || IsLength(op) || op.In? || IsUnary(op)
  }

  predicate IsNumber(op: Operator) {
    op.Gt? || op.Gte? || op.Lt? || op.Lte? || op.Eq? || op.Ne? || op.Between? || op.In?
  }

  predicate IsDatetime(op: Operator) {
    || op.Before? || op.BeforeOrEqual? || op.After? || op.AfterOrEqual? || op.Eq? || op.Ne?
    || op.Between? || op.In? || op.Exists?
  }

  predicate Allowed(t: ValueType, op: Operator) {
    match t
    case Text => IsText(op)
    case Number => IsNumber(op) || op.Exists?
    case Datetime => IsDatetime(op)
  }

  // ----- the identifiers of a workflow -----

  function IdSet(id: Option<string>): set<string> { if id.Some? then {id.value} else {} }

  /** Every node id occurring in the steps, at any depth. */
  function Ids(steps: seq<Step>): set<string>
    decreases steps, 0
  {
    if steps == [] then {} else StepIds(steps[0]) + Ids(steps[1..])
  }

  function StepIds(step: Step): set<string>
    decreases step, 1
  {
    IdSet(step.nodeId) + if step.Condition? then BranchIds(step.branches) else {}
  }

  function BranchIds(branches: seq<Branch>): set<string>
    decreases branches, 0
  {
    if branches == [] then {} else Ids(branches[0].steps) + BranchIds(branches[1..])
  }

  /** No legacy condition at any depth. */
  predicate AllVersion2(steps: seq<Step>)
    decreases steps, 0
  {
    steps == [] || (StepVersion2(steps[0]) && AllVersion2(steps[1..]))
  }

  predicate StepVersion2(step: Step)
    decreases step, 1
  {
    step.Condition? ==> step.version2 && BranchesVersion2(step.branches)
  }

  predicate BranchesVersion2(branches: seq<Branch>)
    decreases branches, 0
  {
    branches == [] || (AllVersion2(branches[0].steps) && BranchesVersion2(branches[1..]))
  }
}
