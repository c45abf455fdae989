/**
 * The meaning of a workflow: rules, extractions, branch selection and step execution over a run
 * context. Everything outside the program - replies, HTTP responses, regular expressions, text
 * normalization, number and date parsing, cancellation - is a `World`, indexed by a counter of
 * external calls where its answers may change from call to call. When a call gets no answer, the run
 * was either cancelled while it waited or it failed.
 */
module Interpreter {
  import opened Wrappers
  import opened Workflow
  import Zones

  /** A date is known by what the clock of the task's zone shows; dates of one zone compare by that alone. */
  datatype Value = TextValue(text: string) | NumberValue(number: real) | DatetimeValue(wall: int)

  datatype Variable = Variable(raw: string, value: Value)

  type Variables = map<string, Variable>

  type Metadata = map<string, string>

  datatype Response = Response(status: string, headers: string, text: string)

  datatype Reply = Received(text: string, metadata: Metadata) | NotReceived

  /** A regular expression call: elapsed budget and, if it did not fail, what it captured or matched. */
  datatype Match = Match(elapsed: nat, outcome: Option<Option<string>>)

  /** The callback data of a clicked button, as text and in base64; a button may carry none. */
  datatype Callback = Callback(text: Option<string>, base64: Option<string>)

  datatype DateResult = Instant(instant: int) | NotADate | DateOverflow

  datatype World = World(
    grammar: Grammar,
    zone: Zones.Zone,                              // the time zone of the task
    normalize: (string, Normalization) -> string,
    graphemes: string -> Option<nat>,              // None: the measurement times out
    parseNumber: string -> Option<real>,
    parseDate: string -> DateResult,
    firstNumber: string -> Option<string>,
    regex: (nat, string, RegexConfig, string, Option<string>) -> Match,
    enters: nat -> bool,                           // the chat and its latest message are found
    normalizes: (seq<Extraction>, seq<Branch>) -> bool,  // normalizing a legacy condition does not raise
    cancelled: nat -> bool,                        // seen by the check before a step or an attempt
    interrupted: nat -> bool,                      // a call without an answer was cancelled
    sends: nat -> bool,
    groupMessages: (nat, string) -> Option<seq<string>>,
    choose: nat -> nat,
    reply: nat -> Reply,
    clicks: nat -> Option<Callback>,
    respond: nat -> Option<Response>,
    lookup: (string, string) -> Option<string>,    // JSON path in a response body
    pathText: seq<nat> -> string)

  /** Errors that non-strict conditions absorb. */
  datatype CondError =
    | MissingVariable | TypeMismatch | UnsupportedOperator | BadLength | BadValue | RegexFailed
    | MissingText | MissingMetadata | NoNumber | NoElse

  /** Exceptions that no condition absorbs. */
  datatype Fault = MissingOperand | Overflow | Timeout

  datatype Eval<+T> = Value(v: T) | Raise(e: CondError) | Crash(f: Fault)

  /** Regular-expression budget of one condition, and the counter of external calls. */
  datatype Budget = Budget(remaining: nat, tick: nat)

  const NODE_BUDGET: nat := 200000
  const MAX_INPUT: nat := 16384

  function TypeOf(v: Value): ValueType {
    match v
    case TextValue(_) => Text
    case NumberValue(_) => Number
    case DatetimeValue(_) => Datetime
  }

  // ----- values -----

  function Convert(w: World, raw: string, t: ValueType): Eval<Variable> {
    match t
    case Text => Value(Variable(raw, TextValue(raw)))
    case Number =>
      (match w.parseNumber(raw)
       case None => Raise(BadValue)
       case Some(n) => Value(Variable(raw, NumberValue(n))))
    case Datetime =>
      (match w.parseDate(raw)
       case Instant(u) => Value(Variable(raw, DatetimeValue(Zones.Local(w.zone, u))))
       case NotADate => Raise(BadValue)
       case DateOverflow => Crash(Overflow))
  }

  function TextOf(v: Value): string { if v.TextValue? then v.text else "" }

  function Resolve(w: World, operand: Operand, vars: Variables, t: ValueType): Eval<Value> {
    match operand
    case Reference(name) =>
      if name !in vars then Raise(MissingVariable)
      else if TypeOf(vars[name].value) != t then Raise(TypeMismatch)
      else Value(vars[name].value)
    case Literal(raw) =>
      match Convert(w, raw, t)
      case Value(v) => Value(v.value)
      case Raise(e) => Raise(e)
      case Crash(f) => Crash(f)
  }

  /** Operands are resolved from left to right; the first failure ends it. */
  function ResolveAll(w: World, operands: seq<Operand>, vars: Variables, t: ValueType): (r: Eval<seq<Value>>)
    ensures r.Value? ==> |r.v| == |operands|
  {
    if operands == [] then Value([])
    else
      match Resolve(w, operands[0], vars, t)
      case Raise(e) => Raise(e)
      case Crash(f) => Crash(f)
      case Value(v) =>
        match ResolveAll(w, operands[1..], vars, t)
        case Value(rest) => Value([v] + rest)
        case Raise(e) => Raise(e)
        case Crash(f) => Crash(f)
  }

  const NO_FLAGS := RegexConfig(false, false, false)

  function RunRegex(w: World, pattern: string, config: Option<RegexConfig>, input: string, group: Option<string>, b: Budget)
    : (Eval<Option<string>>, Budget)
  {
    if |pattern| > MAX_PATTERN || |input| > MAX_INPUT || b.remaining == 0 then (Raise(RegexFailed), b)
    else
      var m := w.regex(b.tick, pattern, config.GetOr(NO_FLAGS), input, group);
      var b' := Budget(if m.elapsed < b.remaining then b.remaining - m.elapsed else 0, b.tick + 1);
      (if m.outcome == None then Raise(RegexFailed) else Value(m.outcome.value), b')
  }

  // ----- rules -----

  predicate LessText(a: string, b: string) {
    if b == [] then false
    else if a == [] then true
    else a[0] < b[0] || (a[0] == b[0] && LessText(a[1..], b[1..]))
  }

  predicate Less(a: Value, b: Value) {
    match (a, b)
    case (TextValue(x), TextValue(y)) => LessText(x, y)
    case (NumberValue(x), NumberValue(y)) => x < y
    case (DatetimeValue(x), DatetimeValue(y)) => x < y
    case _ => false
  }

  function Compare(op: Operator, x: Value, y: Value): Eval<bool> {
    match op
    case Eq | Exact | LengthEq => Value(x == y)
    case Ne | NotExact | LengthNe => Value(x != y)
    case Gt | After | LengthGt => Value(Less(y, x))
    case Gte | AfterOrEqual | LengthGte => Value(x == y || Less(y, x))
    case Lt | Before | LengthLt => Value(Less(x, y))
    case Lte | BeforeOrEqual | LengthLte => Value(x == y || Less(x, y))
    case _ => Raise(UnsupportedOperator)
  }

  /** `low <= x <= high` over the first two operands. */
  function InRange(x: Value, operands: seq<Value>): Eval<bool> {
    if |operands| == 0 then Crash(MissingOperand)
    else if Less(x, operands[0]) then Value(false)
    else if |operands| == 1 then Crash(MissingOperand)
    else Value(!Less(operands[1], x))
  }

  predicate StartsWithText(s: string, p: string) { p <= s }

  predicate EndsWithText(s: string, p: string) { |p| <= |s| && s[|s| - |p|..] == p }

  predicate ContainsText(s: string, p: string) {
    StartsWithText(s, p) || (s != [] && ContainsText(s[1..], p))
  }

  predicate IsLengthValue(v: Value) { v.NumberValue? && v.number >= 0.0 && v.number.Floor as real == v.number }

  function EvaluateLength(w: World, rule: Rule, text: string, vars: Variables): Eval<bool> {
    match w.graphemes(text)
    case None => Crash(Timeout)
    case Some(n) =>
      match ResolveAll(w, rule.operands, vars, Number)
      case Raise(e) => Raise(e)
      case Crash(f) => Crash(f)
      case Value(expected) =>
        if exists k :: 0 <= k < |expected| && !IsLengthValue(expected[k]) then Raise(BadLength)
        else if rule.operator.LengthBetween? then InRange(NumberValue(n as real), expected)
        else if expected == [] then Crash(MissingOperand)
        else Compare(rule.operator, NumberValue(n as real), expected[0])
  }

  function NormalizeAll(w: World, values: seq<Value>, n: Normalization): (r: seq<string>)
    ensures |r| == |values| && forall k :: 0 <= k < |r| ==> r[k] == w.normalize(TextOf(values[k]), n)
  {
    if values == [] then [] else [w.normalize(TextOf(values[0]), n)] + NormalizeAll(w, values[1..], n)
  }

  function EvaluateText(w: World, rule: Rule, text: string, vars: Variables, b: Budget): (Eval<bool>, Budget) {
    match ResolveAll(w, rule.operands, vars, Text)
    case Raise(e) => (Raise(e), b)
    case Crash(f) => (Crash(f), b)
    case Value(values) =>
      var expected := NormalizeAll(w, values, rule.normalization);
      if rule.operator.In? then (Value(text in expected), b)
      else if values == [] then (Crash(MissingOperand), b)
      else
        match rule.operator
        case Contains => (Value(ContainsText(text, expected[0])), b)
        case StartsWith => (Value(StartsWithText(text, expected[0])), b)
        case EndsWith => (Value(EndsWithText(text, expected[0])), b)
        case Regex =>
          (match RunRegex(w, TextOf(values[0]), rule.regex, text, None, b)
           case (Value(found), b') => (Value(found.Some?), b')
           case (Raise(e), b') => (Raise(e), b')
           case (Crash(f), b') => (Crash(f), b'))
        case op => (Compare(op, TextValue(text), TextValue(expected[0])), b)
  }

  function EvaluateOrdered(w: World, rule: Rule, x: Value, vars: Variables): Eval<bool> {
    match ResolveAll(w, rule.operands, vars, rule.valueType)
    case Raise(e) => Raise(e)
    case Crash(f) => Crash(f)
    case Value(expected) =>
      if rule.operator.Between? then InRange(x, expected)
      else if rule.operator.In? then Value(x in expected)
      else if expected == [] then Crash(MissingOperand)
      else Compare(rule.operator, x, expected[0])
  }

  function EvaluateRule(w: World, rule: Rule, vars: Variables, b: Budget): (Eval<bool>, Budget) {
    if rule.variable !in vars then (Raise(MissingVariable), b)
    else
      var x := vars[rule.variable].value;
      if TypeOf(x) != rule.valueType then (Raise(TypeMismatch), b)
      else if rule.operator.Exists? then (Value(true), b)
      else if rule.valueType.Text? then
        var text := w.normalize(TextOf(x), rule.normalization);
        if rule.operator.Empty? then (Value(text == ""), b)
        else if rule.operator.NotEmpty? then (Value(text != ""), b)
        else if IsLength(rule.operator) then (EvaluateLength(w, rule, text, vars), b)
        else EvaluateText(w, rule, text, vars, b)
      else (EvaluateOrdered(w, rule, x, vars), b)
  }

  // ----- extraction -----

  /** What a condition sees of the last wait. */
  datatype Input = Input(text: Option<string>, metadata: Metadata)

  function ExtractRaw(e: Extraction, input: Input): Eval<string> {
    if e.fromMetadata then
      var field := e.field.GetOr("");
      if field in input.metadata then Value(input.metadata[field]) else Raise(MissingMetadata)
    else if input.text == None then Raise(MissingText)
    else Value(input.text.value)
  }

  function ExtractOne(w: World, e: Extraction, input: Input, b: Budget): (Eval<Variable>, Budget) {
    match ExtractRaw(e, input)
    case Raise(x) => (Raise(x), b)
    case Crash(f) => (Crash(f), b)
    case Value(raw) =>
      match e.mode
      case FirstNumber =>
        (match w.firstNumber(raw)
         case None => (Raise(NoNumber), b)
         case Some(n) => (Convert(w, n, e.valueType), b))
      case RegexCapture =>
        (match RunRegex(w, e.pattern.GetOr(""), e.regex, raw, Some(e.group.GetOr("1")), b)
         case (Raise(x), b') => (Raise(x), b')
         case (Crash(f), b') => (Crash(f), b')
         case (Value(captured), b') =>
           if captured == None then (Raise(RegexFailed), b') else (Convert(w, captured.value, e.valueType), b'))
      case _ => (Convert(w, raw, e.valueType), b)
  }

  /**
   * What a run records for the sake of its theorems: the outcome of every extraction and of every
   * rule, what was received by which step, and what was read of which data source (`""`: the last).
   */
  datatype Note =
    | Extracted(x: Eval<Variable>)
    | Evaluated(r: Eval<bool>)
    | Fetched(node: Node, response: Response)
    | Heard(node: Node, text: string, metadata: Metadata)
    | ReadResponse(id: string, response: Response)
    | ReadWait(id: string, input: Input)

  /** Variables, budget and notes: what conditions and extractions work on. */
  datatype Scratch = Scratch(vars: Variables, budget: Budget, notes: seq<Note>)

  /** A failed extraction removes its variable; in strict mode it also ends the condition. */
  function ExtractAll(w: World, extracts: seq<Extraction>, strict: bool, input: Input, s: Scratch): (Eval<()>, Scratch) {
    if extracts == [] then (Value(()), s)
    else
      var (r, b) := ExtractOne(w, extracts[0], input, s.budget);
      var notes := s.notes + [Extracted(r)];
      match r
      case Value(v) => ExtractAll(w, extracts[1..], strict, input, Scratch(s.vars[extracts[0].name := v], b, notes))
      case Raise(e) =>
        var s' := Scratch(s.vars - {extracts[0].name}, b, notes);
        if strict then (Raise(e), s') else ExtractAll(w, extracts[1..], strict, input, s')
      case Crash(f) => (Crash(f), Scratch(s.vars, b, notes))
  }

  // ----- branch selection -----

  /** Whether the rules match: all of them, or any of them; an absorbed error counts as no match. */
  function EvaluateRules(w: World, rules: seq<Rule>, all: bool, matched: bool, strict: bool, s: Scratch)
    : (Eval<bool>, Scratch)
    decreases rules
  {
    if rules == [] then (Value(matched), s)
    else
      var (r, b) := EvaluateRule(w, rules[0], s.vars, s.budget);
      var s' := Scratch(s.vars, b, s.notes + [Evaluated(r)]);
      if r.Crash? || (r.Raise? && strict) then (r, s')
      else
        var result := r.Value? && r.v;
        if all && !result then (Value(false), s')
        else if !all && result then (Value(true), s')
        else EvaluateRules(w, rules[1..], all, all, strict, s')
  }

  function SelectFrom(w: World, branches: seq<Branch>, index: nat, strict: bool, s: Scratch): (r: (Eval<nat>, Scratch))
    ensures r.0.Value? ==> index <= r.0.v < index + |branches|
    decreases branches
  {
    if branches == [] then (Raise(NoElse), s)
    else if branches[0].kind.Else? then (Value(index), s)
    else
      match EvaluateRules(w, branches[0].rules, branches[0].all, branches[0].all, strict, s)
      case (Value(matched), s') => if matched then (Value(index), s') else SelectFrom(w, branches[1..], index + 1, strict, s')
      case (Raise(e), s') => (Raise(e), s')
      case (Crash(f), s') => (Crash(f), s')
  }

  function SelectBranch(w: World, step: Step, strict: bool, input: Input, s: Scratch): (r: (Eval<nat>, Scratch))
    requires step.Condition?
    ensures r.0.Value? ==> r.0.v < |step.branches|
  {
    match ExtractAll(w, step.extracts, strict, input, s)
    case (Value(_), s') => SelectFrom(w, step.branches, 0, strict, s')
    case (Raise(e), s') => (Raise(e), s')
    case (Crash(f), s') => (Crash(f), s')
  }

  // ----- running steps -----

  datatype Status = Running | Success | Failed | Skipped

  /** How a report names its step: path, node id, and index if it is a top-level step. */
  datatype Node = Node(path: seq<nat>, id: Option<string>, index: Option<nat>)

  datatype Report = Report(node: Node, status: Status)

  datatype RunError =
    | Cancelled
    | External                    // timeouts, failed requests, missing groups, failed clicks
    | ConditionFailed(e: CondError)
    | Crashed(f: Fault)
    | SourceMissing(id: string)   // the named data source has not run
    | NothingToExtract            // no data source of the kind has run
    | NoMessage
    | Malformed                   // a legacy condition that normalization does not accept

  datatype State = State(
    vars: Variables, message: bool, lastText: Option<string>, lastMetadata: Metadata,
    http: Option<Response>, responses: map<string, Response>, waits: map<string, string>,
    waitMetadata: map<string, Metadata>, tick: nat, notes: seq<Note>, reports: seq<Report>)

  function Initial(tick: nat): State { State(map[], false, None, map[], None, map[], map[], map[], tick, [], []) }

  datatype Outcome = Done | Stopped(e: RunError)

  function Reported(st: State, node: Node, status: Status): State { st.(reports := st.reports + [Report(node, status)]) }

  function Ticked(st: State): State { st.(tick := st.tick + 1) }

  /** What a call without an answer ends with. */
  function Unanswered(w: World, tick: nat): RunError { if w.interrupted(tick) then Cancelled else External }

  predicate Renders(w: World, text: string, vars: Variables) { w.grammar.templateNames(text) <= vars.Keys }

  predicate RendersAll(w: World, texts: seq<string>, vars: Variables) {
    forall k :: 0 <= k < |texts| ==> Renders(w, texts[k], vars)
  }

  /** The key under which a step stores what it received: `node_id or resolved_path`. */
  function StoreKey(w: World, node: Node): string {
    if node.id.Some? && node.id.value != "" then node.id.value else w.pathText(node.path)
  }

  function RunSend(w: World, step: Step, st: State): (r: (Outcome, State))
    requires step.Send?
    ensures r.1 == st.(tick := r.1.tick, message := r.1.message)
  {
    match step.message
    case FixedText(text) => DoSend(w, text, st)
    case Manual(messages) => if messages == [] then (Stopped(External), st) else DoSend(w, Choice(w, messages, st), st)
    case Group(groupId) =>
      match w.groupMessages(st.tick, groupId)
      case None => (Stopped(External), st)
      case Some(messages) => if messages == [] then (Stopped(External), st) else DoSend(w, Choice(w, messages, st), st)
  }

  function Choice(w: World, messages: seq<string>, st: State): string
    requires messages != []
  {
    messages[w.choose(st.tick) % |messages|]
  }

  function DoSend(w: World, text: string, st: State): (r: (Outcome, State))
    ensures r.1 == st.(tick := r.1.tick, message := r.1.message)
  {
    if !Renders(w, text, st.vars) then (Stopped(ConditionFailed(MissingVariable)), st)
    else if !w.sends(st.tick) then (Stopped(Unanswered(w, st.tick)), Ticked(st))
    else (Done, st.(tick := st.tick + 1, message := true))
  }

  function RunWait(w: World, step: Step, node: Node, st: State): (r: (Outcome, State))
    requires step.Wait?
    ensures r.1 == st.(tick := r.1.tick, message := r.1.message, lastText := r.1.lastText, lastMetadata := r.1.lastMetadata,
                        waits := r.1.waits, waitMetadata := r.1.waitMetadata, notes := r.1.notes)
  {
    if !RendersAll(w, step.matchers, st.vars) then (Stopped(ConditionFailed(MissingVariable)), st)
    else
      match w.reply(st.tick)
      case NotReceived => (Stopped(Unanswered(w, st.tick)), Ticked(st))
      case Received(text, metadata) =>
        (Done, st.(tick := st.tick + 1, message := true, lastText := Some(text), lastMetadata := metadata,
                           waits := st.waits[StoreKey(w, node) := text],
                           waitMetadata := st.waitMetadata[StoreKey(w, node) := metadata],
                           notes := st.notes + [Heard(node, text, metadata)]))
  }

  const CALLBACK_TEXT: string := "runtime.last_clicked_callback_data_text"
  const CALLBACK_BASE64: string := "runtime.last_clicked_callback_data_base64"

  /** A metadata value that is None is no value. */
  function Put(metadata: Metadata, field: string, value: Option<string>): Metadata {
    if value.Some? then metadata[field := value.value] else metadata - {field}
  }

  /** A click replaces the callback data of the one before, also by nothing. */
  function AfterClick(metadata: Metadata, callback: Callback): Metadata {
    Put(Put(metadata, CALLBACK_TEXT, callback.text), CALLBACK_BASE64, callback.base64)
  }

  function RunClick(w: World, step: Step, st: State): (r: (Outcome, State))
    requires step.Click?
    ensures r.1 == st.(tick := r.1.tick, lastMetadata := r.1.lastMetadata)
  {
    if !st.message then (Stopped(NoMessage), st)
    else if !RendersAll(w, step.texts, st.vars) then (Stopped(ConditionFailed(MissingVariable)), st)
    else
      match w.clicks(st.tick)
      case None => (Stopped(Unanswered(w, st.tick)), Ticked(st))
      case Some(callback) => (Done, st.(tick := st.tick + 1, lastMetadata := AfterClick(st.lastMetadata, callback)))
  }

  function RunHttp(w: World, step: Step, node: Node, st: State): (r: (Outcome, State))
    requires step.Http?
    ensures r.1 == st.(tick := r.1.tick, http := r.1.http, responses := r.1.responses, notes := r.1.notes)
  {
    if !Renders(w, step.url, st.vars) || !RendersAll(w, step.headers, st.vars)
       || (step.body.Some? && !Renders(w, step.body.value, st.vars)) then
      (Stopped(ConditionFailed(MissingVariable)), st)
    else
      match w.respond(st.tick)
      case None => (Stopped(Unanswered(w, st.tick)), Ticked(st))
      case Some(response) =>
        (Done, st.(tick := st.tick + 1, http := Some(response), responses := st.responses[StoreKey(w, node) := response],
                   notes := st.notes + [Fetched(node, response)]))
  }

  function Stop<T>(r: Eval<T>): Outcome {
    match r
    case Value(_) => Done
    case Raise(e) => Stopped(ConditionFailed(e))
    case Crash(f) => Stopped(Crashed(f))
  }

  function ScratchOf(st: State): Scratch { Scratch(st.vars, Budget(NODE_BUDGET, st.tick), st.notes) }

  function WithScratch(st: State, s: Scratch): State { st.(vars := s.vars, tick := s.budget.tick, notes := s.notes) }

  function Noted(st: State, note: Note): State { st.(notes := st.notes + [note]) }

  /** The text and metadata of the wait an extraction reads: the named one, or the last. */
  function WaitInput(step: Step, st: State): Result<Input, RunError>
    requires step.Extract?
  {
    var id := step.sourceNodeId;
    if id != "" && id !in st.waits then Err(SourceMissing(id))
    else
      var text := if id != "" then Some(st.waits[id]) else st.lastText;
      if text == None && !step.extraction.mode.MetadataMode? then Err(NothingToExtract)
      else
        Ok(Input(text, if id == "" then st.lastMetadata else if id in st.waitMetadata then st.waitMetadata[id] else map[]))
  }

  function RunWaitExtract(w: World, step: Step, st: State): (r: (Outcome, State))
    requires step.Extract?
    ensures r.1 == st.(vars := r.1.vars, tick := r.1.tick, notes := r.1.notes)
  {
    match WaitInput(step, st)
    case Err(e) => (Stopped(e), st)
    case Ok(input) =>
      var e := step.extraction.(fromMetadata := step.extraction.mode.MetadataMode? || step.extraction.fromMetadata);
      var (r, s) := ExtractAll(w, [e], true, input, ScratchOf(Noted(st, ReadWait(step.sourceNodeId, input))));
      (Stop(r), WithScratch(st, s))
  }

  /** The HTTP response an extraction reads: the named one, or the last. */
  function HttpInput(step: Step, st: State): Result<Response, RunError>
    requires step.Extract?
  {
    var id := step.sourceNodeId;
    if id != "" && id !in st.responses then Err(SourceMissing(id))
    else if id != "" then Ok(st.responses[id])
    else if st.http == None then Err(NothingToExtract)
    else Ok(st.http.value)
  }

  /** What the extraction takes of the response. */
  function HttpRaw(w: World, step: Step, response: Response): Result<string, RunError>
    requires step.Extract?
  {
    match step.source
    case HttpStatus => Ok(response.status)
    case HttpHeaders => Ok(response.headers)
    case _ =>
      if step.path == "" then Ok(response.text)
      else if w.lookup(response.text, step.path) == None then Err(External)
      else Ok(w.lookup(response.text, step.path).value)
  }

  function RunHttpExtract(w: World, step: Step, st: State): (r: (Outcome, State))
    requires step.Extract?
    ensures r.1 == st.(vars := r.1.vars, notes := r.1.notes)
  {
    match HttpInput(step, st)
    case Err(e) => (Stopped(e), st)
    case Ok(response) =>
      var read := Noted(st, ReadResponse(step.sourceNodeId, response));
      match HttpRaw(w, step, response)
      case Err(e) => (Stopped(e), read)
      case Ok(raw) =>
        match Convert(w, raw, step.extraction.valueType)
        case Value(v) => (Done, read.(vars := st.vars[step.extraction.name := v]))
        case Raise(e) => (Stopped(ConditionFailed(e)), read)
        case Crash(f) => (Stopped(Crashed(f)), read)
  }

  function RunPlain(w: World, step: Step, node: Node, st: State): (r: (Outcome, State))
    requires !step.Condition?
    ensures r.1.reports == st.reports
  {
    match step
    case Send(_, _) => RunSend(w, step, st)
    case Wait(_, _, _) => RunWait(w, step, node, st)
    case Click(_, _, _, _) => RunClick(w, step, st)
    case Http(_, _, _, _, _) => RunHttp(w, step, node, st)
    case Extract(_, source, _, _, _) => if source.WaitText? then RunWaitExtract(w, step, st) else RunHttpExtract(w, step, st)
  }

  /** The branch a condition selects, with the notes and variables it leaves behind. */
  function Selection(w: World, step: Step, st: State): (r: (Eval<nat>, State))
    requires step.Condition?
    ensures r.0.Value? ==> r.0.v < |step.branches|
    ensures r.1 == st.(vars := r.1.vars, tick := r.1.tick, notes := r.1.notes)
  {
    var (r, s) := SelectBranch(w, step, step.strict, Input(st.lastText, st.lastMetadata), ScratchOf(st));
    (r, WithScratch(st, s))
  }

  function NodeAt(step: Step, path: seq<nat>, top: bool): (n: Node)
    ensures n.path == path
  {
    Node(path, if step.nodeId.Some? && step.nodeId.value != "" then step.nodeId else None,
         if top && path != [] then Some(path[|path| - 1]) else None)
  }

  /** Legacy conditions are normalized when they are run or skipped, which raises for some that were accepted. */
  predicate WellFormed(w: World, step: Step) {
    step.Condition? && !step.version2 ==> w.normalizes(step.extracts, Heads(step.branches))
  }

  /** The branches without their steps, which normalization does not look at. */
  function Heads(branches: seq<Branch>): seq<Branch> {
    seq(|branches|, k requires 0 <= k < |branches| => branches[k].(steps := []))
  }

  /** What marking as skipped reports, and whether it got to the end. */
  datatype Marking = Marking(whole: bool, reports: seq<Report>)

  function Then(a: Marking, b: Marking): Marking { if a.whole then Marking(b.whole, a.reports + b.reports) else a }

  function SkipSteps(w: World, steps: seq<Step>, prefix: seq<nat>, i: nat): Marking
    decreases steps, 0
  {
    if steps == [] then Marking(true, [])
    else Then(SkipStep(w, steps[0], prefix + [i]), SkipSteps(w, steps[1..], prefix, i + 1))
  }

  function SkipStep(w: World, step: Step, path: seq<nat>): Marking
    decreases step, 1
  {
    var own := [Report(NodeAt(step, path, false), Skipped)];
    if !WellFormed(w, step) then Marking(false, own)
    else Then(Marking(true, own),
              if step.Condition? then SkipBranches(w, step.branches, path, 0, |step.branches|) else Marking(true, []))
  }

  /** Skip the steps of every branch but the one at `keep`. */
  function SkipBranches(w: World, branches: seq<Branch>, path: seq<nat>, b: nat, keep: nat): Marking
    decreases branches, 0
  {
    if branches == [] then Marking(true, [])
    else Then(if b == keep then Marking(true, []) else SkipSteps(w, branches[0].steps, path + [b], 0),
              SkipBranches(w, branches[1..], path, b + 1, keep))
  }

  function RunSteps(w: World, steps: seq<Step>, prefix: seq<nat>, i: nat, top: bool, st: State): (Outcome, State)
    decreases steps, 0
  {
    if steps == [] then (Done, st)
    else
      match RunStep(w, steps[0], prefix + [i], top, st)
      case (Done, st') => RunSteps(w, steps[1..], prefix, i + 1, top, st')
      case (Stopped(e), st') => (Stopped(e), st')
  }

  function RunStep(w: World, step: Step, path: seq<nat>, top: bool, st: State): (Outcome, State)
    decreases step, 1
  {
    var node := NodeAt(step, path, top);
    if !WellFormed(w, step) then (Stopped(Malformed), st)
    else if w.cancelled(st.tick) then (Stopped(Cancelled), Ticked(st))
    else
      var started := Reported(Ticked(st), node, Running);
      if step.Condition? then
        match RunCondition(w, step, node, started)
        case (Done, st') => (Done, st')
        case (Stopped(e), st') => (Stopped(e), Reported(st', node, Failed))
      else
        match RunPlain(w, step, node, started)
        case (Done, st') => (Done, Reported(st', node, Success))
        case (Stopped(e), st') => (Stopped(e), Reported(st', node, Failed))
  }

  function RunCondition(w: World, step: Step, node: Node, st: State): (Outcome, State)
    requires step.Condition?
    decreases step, 0
  {
    match Selection(w, step, st)
    case (Value(k), st') =>
      var selected, marking := Reported(st', node, Success), SkipBranches(w, step.branches, node.path, 0, k);
      var skipped := selected.(reports := selected.reports + marking.reports);
      if marking.whole then RunSteps(w, step.branches[k].steps, node.path + [k], 0, false, skipped)
      else (Stopped(Malformed), skipped)
    case (Raise(e), st') => (Stopped(ConditionFailed(e)), st')
    case (Crash(f), st') => (Stopped(Crashed(f)), st')
  }

  /** One attempt at a workflow: find the chat, then run the steps. */
  function Run(w: World, steps: seq<Step>, tick: nat): (Outcome, State) {
    var st := Initial(tick + 1);
    if w.enters(tick) then RunSteps(w, steps, [], 0, true, st) else (Stopped(Unanswered(w, tick)), st)
  }
}
