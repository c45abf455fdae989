/**
 * What values are read: of literals and references, by extractions from messages and metadata, and by
 * extract steps from waits and responses. Each is a predicate over what is there to be read, and holds
 * of exactly the value that the run ends up with.
 */
module ExtractionMeaning {
  import opened Wrappers
  import opened Workflow
  import opened Interpreter
  import opened RuleMeaning
  import Zones

  // ----- texts and operands -----

  /** The text is read as this value: as it stands, as the number it spells, or as the wall time of its instant. */
  predicate Reads(w: World, raw: string, t: ValueType, v: Value) {
    match t
    case Text => v == TextValue(raw)
    case Number => v.NumberValue? && w.parseNumber(raw) == Some(v.number)
    case Datetime => w.parseDate(raw).Instant? && v == DatetimeValue(Zones.Local(w.zone, w.parseDate(raw).instant))
  }

  /** A date beyond what can be represented, which nothing absorbs. */
  predicate TooFar(w: World, raw: string, t: ValueType) { t.Datetime? && w.parseDate(raw).DateOverflow? }

  lemma ConversionReads(w: World, raw: string, t: ValueType)
    ensures forall x :: Convert(w, raw, t) == Value(x) <==> x.raw == raw && Reads(w, raw, t, x.value)
    ensures Convert(w, raw, t).Crash? <==> TooFar(w, raw, t)
  {
  }

  /** A reference stands for a variable of the type asked for, a literal for what it is read as. */
  predicate StandsFor(w: World, operand: Operand, vars: Variables, t: ValueType, v: Value) {
    match operand
    case Reference(name) => name in vars && vars[name].value == v && TypeOf(v) == t
    case Literal(raw) => Reads(w, raw, t, v)
  }

  predicate LiteralTooFar(w: World, operand: Operand, t: ValueType) {
    operand.Literal? && TooFar(w, operand.value, t)
  }

  lemma OperandStandsFor(w: World, operand: Operand, vars: Variables, t: ValueType)
    ensures forall v :: Resolve(w, operand, vars, t) == Value(v) <==> StandsFor(w, operand, vars, t, v)
    ensures Resolve(w, operand, vars, t).Crash? <==> LiteralTooFar(w, operand, t)
  {
    if operand.Literal? {
      ConversionReads(w, operand.value, t);
      assert forall v :: Reads(w, operand.value, t, v) ==> Convert(w, operand.value, t) == Value(Variable(operand.value, v));
    }
  }

  /** The operands of a rule are resolved, in order, to exactly the values that they stand for. */
  lemma {:induction false} OperandsStandFor(w: World, operands: seq<Operand>, vars: Variables, t: ValueType, values: seq<Value>)
    ensures ResolveAll(w, operands, vars, t) == Value(values)
            <==> && |values| == |operands|
                 && forall k :: 0 <= k < |operands| ==> StandsFor(w, operands[k], vars, t, values[k])
  {
    hide Resolve, StandsFor;
    if operands != [] {
      OperandStandsFor(w, operands[0], vars, t);
      if values != [] {
        OperandsStandFor(w, operands[1..], vars, t, values[1..]);
        assert values == [values[0]] + values[1..];
        assert forall k :: 0 < k < |operands| ==> operands[k] == operands[1..][k - 1];
        assert forall k :: 0 < k < |values| ==> values[k] == values[1..][k - 1];
      }
    }
  }

  /** Resolving operands fails for good exactly if the first that stands for nothing is a date too far away. */
  lemma {:induction false} OperandsTooFar(w: World, operands: seq<Operand>, vars: Variables, t: ValueType)
    ensures ResolveAll(w, operands, vars, t).Crash?
            <==> exists k :: 0 <= k < |operands| && LiteralTooFar(w, operands[k], t)
                             && ResolveAll(w, operands[..k], vars, t).Value?
  {
    hide Resolve, LiteralTooFar, StandsFor;
    if operands != [] {
      OperandStandsFor(w, operands[0], vars, t);
      OperandsTooFar(w, operands[1..], vars, t);
      forall k | 0 < k <= |operands|
        ensures ResolveAll(w, operands[..k], vars, t).Value?
                <==> Resolve(w, operands[0], vars, t).Value? && ResolveAll(w, operands[1..][..k - 1], vars, t).Value?
      {
        assert operands[..k][1..] == operands[1..][..k - 1];
      }
      assert ResolveAll(w, operands[..0], vars, t).Value?;
      if k :| 0 <= k < |operands[1..]| && LiteralTooFar(w, operands[1..][k], t)
              && ResolveAll(w, operands[1..][..k], vars, t).Value? {
        if Resolve(w, operands[0], vars, t).Value? {
          assert LiteralTooFar(w, operands[k + 1], t) && ResolveAll(w, operands[..k + 1], vars, t).Value?;
        }
      }
    }
  }

  // ----- extractions -----

  /** What an extraction starts from: the metadata field or the text. */
  function Given(e: Extraction, input: Input): Option<string> {
    if !e.fromMetadata then input.text
    else
      var field := if e.field.Some? then e.field.value else "";
      if field in input.metadata then Some(input.metadata[field]) else None
  }

  /** The regular expression engine is asked for the group. */
  predicate Captures(e: Extraction, raw: string, b: Budget) {
    e.mode.RegexCapture? && Asks(if e.pattern.Some? then e.pattern.value else "", raw, b)
  }

  function Capture(w: World, e: Extraction, raw: string, b: Budget): Match {
    w.regex(b.tick, if e.pattern.Some? then e.pattern.value else "",
            if e.regex.Some? then e.regex.value else RegexConfig(false, false, false),
            raw, Some(if e.group.Some? then e.group.value else "1"))
  }

  /** Of the given text the extraction takes this: the first number, what the group captured, or all of it. */
  predicate Takes(w: World, e: Extraction, raw: string, b: Budget, part: string) {
    match e.mode
    case FirstNumber => w.firstNumber(raw) == Some(part)
    case RegexCapture => Captures(e, raw, b) && Capture(w, e, raw, b).outcome == Some(Some(part))
    case WholeText => part == raw
    case MetadataMode => part == raw
  }

  predicate Obtains(w: World, e: Extraction, input: Input, b: Budget, x: Variable) {
    && Given(e, input).Some?
    && Takes(w, e, Given(e, input).value, b, x.raw)
    && Reads(w, x.raw, e.valueType, x.value)
  }

  ghost predicate Overflows(w: World, e: Extraction, input: Input, b: Budget) {
    Given(e, input).Some? && exists part :: Takes(w, e, Given(e, input).value, b, part) && TooFar(w, part, e.valueType)
  }

  /** What an extraction leaves of the budget. */
  function Spent(w: World, e: Extraction, input: Input, b: Budget): Budget {
    if Given(e, input).Some? && Captures(e, Given(e, input).value, b) then
      var elapsed := Capture(w, e, Given(e, input).value, b).elapsed;
      Budget(if elapsed < b.remaining then b.remaining - elapsed else 0, b.tick + 1)
    else b
  }

  lemma PartIsConverted(w: World, e: Extraction, input: Input, b: Budget, part: string)
    requires Given(e, input).Some? && Takes(w, e, Given(e, input).value, b, part)
    ensures ExtractOne(w, e, input, b).0 == Convert(w, part, e.valueType)
    ensures forall other :: Takes(w, e, Given(e, input).value, b, other) ==> other == part
  {
    hide Convert;
  }

  lemma SomePartIsTaken(w: World, e: Extraction, input: Input, b: Budget)
    requires !ExtractOne(w, e, input, b).0.Raise?
    ensures Given(e, input).Some? && exists part :: Takes(w, e, Given(e, input).value, b, part)
  {
    hide Convert;
    var raw := Given(e, input).value;
    if e.mode.FirstNumber? {
      assert Takes(w, e, raw, b, w.firstNumber(raw).value);
    } else if e.mode.RegexCapture? {
      assert Takes(w, e, raw, b, Capture(w, e, raw, b).outcome.value.value);
    } else {
      assert Takes(w, e, raw, b, raw);
    }
  }

  lemma ExtractionSpends(w: World, e: Extraction, input: Input, b: Budget)
    ensures ExtractOne(w, e, input, b).1 == Spent(w, e, input, b)
  {
    hide Convert;
  }

  lemma ExtractionObtains(w: World, e: Extraction, input: Input, b: Budget)
    ensures forall x :: ExtractOne(w, e, input, b).0 == Value(x) <==> Obtains(w, e, input, b, x)
    ensures ExtractOne(w, e, input, b).0.Crash? <==> Overflows(w, e, input, b)
    ensures ExtractOne(w, e, input, b).1 == Spent(w, e, input, b)
  {
    hide Reads, TooFar, Convert, ExtractOne, Takes, Given;
    ExtractionSpends(w, e, input, b);
    if part :| Given(e, input).Some? && Takes(w, e, Given(e, input).value, b, part) {
      PartIsConverted(w, e, input, b, part);
      ConversionReads(w, part, e.valueType);
    } else if !ExtractOne(w, e, input, b).0.Raise? {
      SomePartIsTaken(w, e, input, b);
    }
  }

  /** The budget with which extraction `k` is made. */
  function SpentBefore(w: World, extracts: seq<Extraction>, input: Input, b: Budget, k: nat): Budget
    requires k <= |extracts|
  {
    if k == 0 then b else SpentBefore(w, extracts[1..], input, Spent(w, extracts[0], input, b), k - 1)
  }

  /** Extraction `k` obtains something. */
  ghost predicate Succeeds(w: World, extracts: seq<Extraction>, input: Input, b: Budget, k: nat)
    requires k < |extracts|
  {
    exists x :: Obtains(w, extracts[k], input, SpentBefore(w, extracts, input, b, k), x)
  }

  /** In strict mode extraction `k` succeeds, else it is not of a date too far away. */
  ghost predicate Passes(w: World, extracts: seq<Extraction>, strict: bool, input: Input, b: Budget, k: nat)
    requires k < |extracts|
  {
    if strict then Succeeds(w, extracts, input, b, k)
    else !Overflows(w, extracts[k], input, SpentBefore(w, extracts, input, b, k))
  }

  ghost predicate Bearable(w: World, extracts: seq<Extraction>, strict: bool, input: Input, b: Budget) {
    forall k: nat :: k < |extracts| ==> Passes(w, extracts, strict, input, b, k)
  }

  lemma FirstPasses(w: World, extracts: seq<Extraction>, strict: bool, input: Input, b: Budget)
    requires extracts != []
    ensures var r := ExtractOne(w, extracts[0], input, b).0;
            Passes(w, extracts, strict, input, b, 0) <==> if strict then r.Value? else !r.Crash?
    ensures forall k: nat :: 0 < k < |extracts| ==>
              (Passes(w, extracts, strict, input, b, k)
               <==> Passes(w, extracts[1..], strict, input, Spent(w, extracts[0], input, b), k - 1))
  {
    hide Obtains, Overflows, Spent, ExtractOne;
    ExtractionObtains(w, extracts[0], input, b);
    assert SpentBefore(w, extracts, input, b, 0) == b;
    forall k: nat | 0 < k < |extracts|
      ensures Passes(w, extracts, strict, input, b, k)
              <==> Passes(w, extracts[1..], strict, input, Spent(w, extracts[0], input, b), k - 1)
    {
      var rest, b' := extracts[1..], Spent(w, extracts[0], input, b);
      assert extracts[k] == rest[k - 1];
      assert SpentBefore(w, extracts, input, b, k) == SpentBefore(w, rest, input, b', k - 1);
    }
  }

  lemma BearableFirst(w: World, extracts: seq<Extraction>, strict: bool, input: Input, b: Budget)
    requires extracts != []
    ensures var r := ExtractOne(w, extracts[0], input, b).0;
            Bearable(w, extracts, strict, input, b)
            <==> && (if strict then r.Value? else !r.Crash?)
                 && Bearable(w, extracts[1..], strict, input, Spent(w, extracts[0], input, b))
  {
    hide Passes, Spent, ExtractOne;
    FirstPasses(w, extracts, strict, input, b);
    var rest, b' := extracts[1..], Spent(w, extracts[0], input, b);
    if Bearable(w, extracts, strict, input, b) {
      forall k: nat | k < |rest|
        ensures Passes(w, rest, strict, input, b', k)
      {
        var next := k + 1;
        assert Passes(w, extracts, strict, input, b, next);
      }
    }
  }

  /** Extractions go through exactly if they are bearable, and leave what they spent of the budget. */
  lemma {:induction false} ExtractionsGoThrough(w: World, extracts: seq<Extraction>, strict: bool, input: Input, s: Scratch)
    ensures var (r, s') := ExtractAll(w, extracts, strict, input, s);
            && (r.Value? <==> Bearable(w, extracts, strict, input, s.budget))
            && (r.Value? ==> s'.budget == SpentBefore(w, extracts, input, s.budget, |extracts|))
    decreases extracts
  {
    hide ExtractOne, Bearable, Spent;
    if extracts == [] {
      NothingIsBearable(w, strict, input, s.budget);
    } else {
      var (r, b) := ExtractOne(w, extracts[0], input, s.budget);
      var notes := s.notes + [Extracted(r)];
      ExtractionObtains(w, extracts[0], input, s.budget);
      BearableFirst(w, extracts, strict, input, s.budget);
      if r.Value? {
        ExtractionsGoThrough(w, extracts[1..], strict, input, Scratch(s.vars[extracts[0].name := r.v], b, notes));
      } else if r.Raise? {
        ExtractionsGoThrough(w, extracts[1..], strict, input, Scratch(s.vars - {extracts[0].name}, b, notes));
      }
    }
  }

  lemma NothingIsBearable(w: World, strict: bool, input: Input, b: Budget)
    ensures Bearable(w, [], strict, input, b)
  {
  }

  /** Variables that no extraction names stay as they were. */
  lemma {:induction false} OtherVariablesStay(w: World, extracts: seq<Extraction>, strict: bool, input: Input, s: Scratch, n: string)
    requires forall k :: 0 <= k < |extracts| ==> extracts[k].name != n
    ensures var vars := ExtractAll(w, extracts, strict, input, s).1.vars;
            && (n in vars <==> n in s.vars) && (n in vars ==> vars[n] == s.vars[n])
    decreases extracts
  {
    hide ExtractOne;
    if extracts != [] {
      var (r, b) := ExtractOne(w, extracts[0], input, s.budget);
      var notes := s.notes + [Extracted(r)];
      if r.Value? {
        OtherVariablesStay(w, extracts[1..], strict, input, Scratch(s.vars[extracts[0].name := r.v], b, notes), n);
      } else if r.Raise? {
        OtherVariablesStay(w, extracts[1..], strict, input, Scratch(s.vars - {extracts[0].name}, b, notes), n);
      }
    }
  }

  /**
   * The variable of an extraction is afterwards what it obtains, and gone if it obtains nothing, whatever
   * it was before; of several extractions with one name the last counts.
   */
  lemma {:induction false} ExtractionSetsItsVariable(w: World, extracts: seq<Extraction>, strict: bool, input: Input,
                                                     s: Scratch, k: nat)
    requires k < |extracts| && forall j :: k < j < |extracts| ==> extracts[j].name != extracts[k].name
    requires ExtractAll(w, extracts, strict, input, s).0.Value?
    ensures var vars, n := ExtractAll(w, extracts, strict, input, s).1.vars, extracts[k].name;
            forall x :: (n in vars && vars[n] == x)
                        <==> Obtains(w, extracts[k], input, SpentBefore(w, extracts, input, s.budget, k), x)
    decreases extracts
  {
    hide ExtractOne, Obtains, Spent, Overflows;
    var (r, b) := ExtractOne(w, extracts[0], input, s.budget);
    var next := Scratch(if r.Value? then s.vars[extracts[0].name := r.v] else s.vars - {extracts[0].name}, b,
                        s.notes + [Extracted(r)]);
    ExtractionObtains(w, extracts[0], input, s.budget);
    assert ExtractAll(w, extracts, strict, input, s) == ExtractAll(w, extracts[1..], strict, input, next);
    if k == 0 {
      OtherVariablesStay(w, extracts[1..], strict, input, next, extracts[0].name);
    } else {
      ExtractionSetsItsVariable(w, extracts[1..], strict, input, next, k - 1);
    }
  }

  // ----- extract steps -----

  /** The response that an extract step is about: that of the step it names, or the last one. */
  predicate IsAbout(st: State, id: string, response: Response) {
    if id == "" then st.http == Some(response) else id in st.responses && st.responses[id] == response
  }

  /** The part of a response: its status, its headers, its text, or what the path finds in that. */
  predicate PartOf(w: World, step: Step, response: Response, part: string)
    requires step.Extract?
  {
    match step.source
    case HttpStatus => part == response.status
    case HttpHeaders => part == response.headers
    case _ => if step.path == "" then part == response.text else w.lookup(response.text, step.path) == Some(part)
  }

  predicate ObtainsFromHttp(w: World, step: Step, st: State, response: Response, x: Variable)
    requires step.Extract?
  {
    && IsAbout(st, step.sourceNodeId, response)
    && PartOf(w, step, response, x.raw)
    && Reads(w, x.raw, step.extraction.valueType, x.value)
  }

  /** An extraction from a response succeeds exactly if there is something to obtain, and sets its variable to that. */
  lemma HttpExtractionObtains(w: World, step: Step, st: State)
    requires step.Extract? && !step.source.WaitText?
    ensures var (o, st') := RunHttpExtract(w, step, st);
            && (o == Done <==> exists response, x :: ObtainsFromHttp(w, step, st, response, x))
            && forall response, x :: ObtainsFromHttp(w, step, st, response, x)
                                     ==> st'.vars == st.vars[step.extraction.name := x]
    ensures RunHttpExtract(w, step, st).0 != Done ==> RunHttpExtract(w, step, st).1.vars == st.vars
  {
    hide Reads, Convert;
    forall response, raw | IsAbout(st, step.sourceNodeId, response) && PartOf(w, step, response, raw)
      ensures HttpInput(step, st) == Ok(response) && HttpRaw(w, step, response) == Ok(raw)
      ensures forall x: Variable :: x.raw == raw ==>
                (Convert(w, raw, step.extraction.valueType) == Value(x) <==> Reads(w, raw, step.extraction.valueType, x.value))
    {
      ConversionReads(w, raw, step.extraction.valueType);
    }
    if RunHttpExtract(w, step, st).0 == Done {
      var response := HttpInput(step, st).value;
      var raw := HttpRaw(w, step, response).value;
      var x := Convert(w, raw, step.extraction.valueType).v;
      ConversionReads(w, raw, step.extraction.valueType);
      assert ObtainsFromHttp(w, step, st, response, x);
    }
  }

  /** The message that an extract step is about: that of the wait it names, or the last one. */
  predicate IsHeard(st: State, id: string, input: Input) {
    if id == "" then input == Input(st.lastText, st.lastMetadata)
    else
      && id in st.waits && input.text == Some(st.waits[id])
      && input.metadata == if id in st.waitMetadata then st.waitMetadata[id] else map[]
  }

  /** The extraction of an extract step; its mode alone says whether it reads metadata. */
  function Asked(step: Step): Extraction
    requires step.Extract?
  {
    if step.extraction.mode.MetadataMode? then step.extraction.(fromMetadata := true) else step.extraction
  }

  predicate ObtainsFromWait(w: World, step: Step, st: State, input: Input, x: Variable)
    requires step.Extract?
  {
    && IsHeard(st, step.sourceNodeId, input)
    && (input.text.Some? || step.extraction.mode.MetadataMode?)
    && Obtains(w, Asked(step), input, Budget(200000, st.tick), x)
  }

  lemma HeardIsInput(step: Step, st: State, input: Input)
    requires step.Extract?
    ensures IsHeard(st, step.sourceNodeId, input) && (input.text.Some? || step.extraction.mode.MetadataMode?)
            <==> WaitInput(step, st) == Ok(input)
  {
  }

  lemma WaitExtractionObtains(w: World, step: Step, st: State)
    requires step.Extract? && step.source.WaitText?
    ensures var (o, st') := RunWaitExtract(w, step, st);
            && (o == Done <==> exists input, x :: ObtainsFromWait(w, step, st, input, x))
            && forall input, x :: ObtainsFromWait(w, step, st, input, x)
                                  ==> st'.vars == st.vars[step.extraction.name := x]
  {
    hide Obtains, ExtractOne, ExtractAll, Overflows, IsHeard, WaitInput;
    forall input
      ensures IsHeard(st, step.sourceNodeId, input) && (input.text.Some? || step.extraction.mode.MetadataMode?)
              <==> WaitInput(step, st) == Ok(input)
    {
      HeardIsInput(step, st, input);
    }
    if WaitInput(step, st).Ok? {
      var e, input := Asked(step), WaitInput(step, st).value;
      ExtractionObtains(w, e, input, Budget(NODE_BUDGET, st.tick));
      OneExtraction(w, e, input, ScratchOf(Noted(st, ReadWait(step.sourceNodeId, input))));
      if RunWaitExtract(w, step, st).0 == Done {
        assert ObtainsFromWait(w, step, st, input, ExtractOne(w, e, input, Budget(NODE_BUDGET, st.tick)).0.v);
      }
    }
  }

  lemma OneExtraction(w: World, e: Extraction, input: Input, s: Scratch)
    ensures var (r, s') := ExtractAll(w, [e], true, input, s);
            var one := ExtractOne(w, e, input, s.budget).0;
            && (r.Value? <==> one.Value?) && (one.Value? ==> s'.vars == s.vars[e.name := one.v])
  {
    hide ExtractOne;
    assert [e][1..] == [];
  }
}
