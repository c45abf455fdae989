/**
 * What rules and branches mean, stated without the evaluation order: comparisons form a total order
 * on each type of value, and a condition takes the first branch whose rules hold.
 */
module RuleMeaning {
  import opened Wrappers
  import opened Workflow
  import opened Interpreter
  import opened Zones
  import Strictness

  // ----- comparisons -----

  /** `a` comes first in code-point order: at the first difference it is smaller or has ended. */
  ghost predicate Precedes(a: string, b: string) {
    exists k :: DiffersAt(a, b, k)
  }

  predicate DiffersAt(a: string, b: string, k: int) {
    && 0 <= k <= |a| && k < |b| && a[..k] == b[..k]
    && (k < |a| ==> a[k] < b[k])
  }

  lemma {:induction false} TextOrder(a: string, b: string)
    ensures LessText(a, b) <==> Precedes(a, b)
    decreases a
  {
    if b != [] {
      if a == [] {
        assert DiffersAt(a, b, 0);
      } else {
        TextOrder(a[1..], b[1..]);
        if a[0] < b[0] {
          assert DiffersAt(a, b, 0);
        } else if a[0] == b[0] {
          if k :| DiffersAt(a[1..], b[1..], k) {
            assert a[..k + 1] == [a[0]] + a[1..][..k] && b[..k + 1] == [b[0]] + b[1..][..k];
            assert DiffersAt(a, b, k + 1);
          }
          if k :| DiffersAt(a, b, k) {
            assert k > 0;
            assert a[1..][..k - 1] == a[..k][1..] && b[1..][..k - 1] == b[..k][1..];
            assert DiffersAt(a[1..], b[1..], k - 1);
          }
        } else if k :| DiffersAt(a, b, k) {
          assert k > 0 ==> a[..k][0] == b[..k][0];
        }
      }
    }
  }

  lemma {:induction false} TextIsTotallyOrdered(a: string, b: string)
    ensures a == b || LessText(a, b) || LessText(b, a)
    ensures !(LessText(a, b) && (a == b || LessText(b, a)))
    decreases a
  {
    if a != [] && b != [] {
      TextIsTotallyOrdered(a[1..], b[1..]);
      assert a == [a[0]] + a[1..] && b == [b[0]] + b[1..];
    }
  }

  lemma {:induction false} TextOrderIsTransitive(a: string, b: string, c: string)
    requires LessText(a, b) && LessText(b, c)
    ensures LessText(a, c)
    decreases a
  {
    if a != [] && a[0] == b[0] == c[0] {
      TextOrderIsTransitive(a[1..], b[1..], c[1..]);
    }
  }

  predicate Holds(r: Eval<bool>) { r == Value(true) }

  /** Of two values of one type exactly one of less, equal and greater holds, and the other operators follow suit. */
  lemma ComparisonIsTotal(x: Value, y: Value)
    requires TypeOf(x) == TypeOf(y)
    ensures Holds(Compare(Eq, x, y)) <==> x == y
    ensures Holds(Compare(Lt, x, y)) || Holds(Compare(Eq, x, y)) || Holds(Compare(Gt, x, y))
    ensures !(Holds(Compare(Lt, x, y)) && Holds(Compare(Gt, x, y)))
    ensures Holds(Compare(Eq, x, y)) ==> !Holds(Compare(Lt, x, y)) && !Holds(Compare(Gt, x, y))
    ensures Holds(Compare(Ne, x, y)) <==> !Holds(Compare(Eq, x, y))
    ensures Holds(Compare(Gte, x, y)) <==> !Holds(Compare(Lt, x, y))
    ensures Holds(Compare(Lte, x, y)) <==> !Holds(Compare(Gt, x, y))
    ensures Compare(Gt, x, y) == Compare(Lt, y, x)
    ensures x.NumberValue? ==> (Holds(Compare(Lt, x, y)) <==> x.number < y.number)
    ensures x.DatetimeValue? ==> (Holds(Compare(Lt, x, y)) <==> x.wall < y.wall)
    ensures x.TextValue? ==> (Holds(Compare(Lt, x, y)) <==> Precedes(x.text, y.text))
  {
    if x.TextValue? {
      TextIsTotallyOrdered(x.text, y.text);
      TextOrder(x.text, y.text);
    }
  }

  /** The operator of numbers that an operator of dates, lengths or texts stands for. */
  function Plain(op: Operator): Operator {
    match op
    case Before | LengthLt => Lt
    case BeforeOrEqual | LengthLte => Lte
    case After | LengthGt => Gt
    case AfterOrEqual | LengthGte => Gte
    case Exact | LengthEq => Eq
    case NotExact | LengthNe => Ne
    case _ => op
  }

  lemma OperatorsGoByManyNames(op: Operator, x: Value, y: Value)
    ensures Compare(op, x, y) == Compare(Plain(op), x, y)
  {
    hide Less;
  }

  /** The operator that should hold exactly when `op` does not. */
  function Opposite(op: Operator): Operator {
    match op
    case Eq => Ne
    case Ne => Eq
    case Exact => NotExact
    case NotExact => Exact
    case LengthEq => LengthNe
    case LengthNe => LengthEq
    case Lt => Gte
    case Gte => Lt
    case Gt => Lte
    case Lte => Gt
    case Before => AfterOrEqual
    case AfterOrEqual => Before
    case After => BeforeOrEqual
    case BeforeOrEqual => After
    case LengthLt => LengthGte
    case LengthGte => LengthLt
    case LengthGt => LengthLte
    case LengthLte => LengthGt
    case _ => op
  }

  /** Of two opposite comparisons of values of one type exactly one holds, whether of numbers, dates, lengths or texts. */
  lemma OppositesExclude(op: Operator, x: Value, y: Value)
    requires TypeOf(x) == TypeOf(y) && Compare(op, x, y).Value?
    ensures Holds(Compare(Opposite(op), x, y)) <==> !Holds(Compare(op, x, y))
    ensures Opposite(Opposite(op)) == op
  {
    OperatorsGoByManyNames(op, x, y);
    OperatorsGoByManyNames(Opposite(op), x, y);
    ComparisonIsTotal(x, y);
  }

  // ----- dates -----

  /** When the clock is set back between `u` and `v`, it may show an earlier time at the later instant. */
  predicate Turned(z: Zone, u: int, v: int) { u < z.transition <= v && v - u < z.before - z.after }

  /** Or the same time again. */
  predicate Repeated(z: Zone, u: int, v: int) { u < z.transition <= v && v - u == z.before - z.after }

  /**
   * Dates are compared by what the clock shows, not by the instants they stand for: exactly when this
   * makes a difference.
   */
  lemma DatesCompareByTheClock(w: World, a: string, u: int, b: string, v: int)
    requires w.parseDate(a) == Instant(u) && w.parseDate(b) == Instant(v)
    ensures Convert(w, a, Datetime).Value? && Convert(w, b, Datetime).Value?
    ensures var x, y := Convert(w, a, Datetime).v.value, Convert(w, b, Datetime).v.value;
            && (Holds(Compare(Before, x, y))
                <==> (u < v && !Turned(w.zone, u, v) && !Repeated(w.zone, u, v)) || Turned(w.zone, v, u))
            && (Holds(Compare(Eq, x, y)) <==> u == v || Repeated(w.zone, u, v) || Repeated(w.zone, v, u))
  {
    assert Less(Convert(w, a, Datetime).v.value, Convert(w, b, Datetime).v.value)
      <==> Local(w.zone, u) < Local(w.zone, v);
  }

  /** On 3 November 2024 in New York, 05:50 UTC is not before 06:10 UTC: the clock shows 01:50 and then 01:10. */
  lemma NovemberNight(w: World, a: string, b: string)
    requires w.zone == Zone(-4 * 3600, -5 * 3600, 1730613600)
    requires w.parseDate(a) == Instant(1730613000) && w.parseDate(b) == Instant(1730614200)
    ensures var x, y := Convert(w, a, Datetime), Convert(w, b, Datetime);
            x.Value? && y.Value? && !Holds(Compare(Before, x.v.value, y.v.value)) && Holds(Compare(After, x.v.value, y.v.value))
    ensures ClockOf(Local(w.zone, 1730613000)) == 3600 + 50 * 60 && ClockOf(Local(w.zone, 1730614200)) == 3600 + 10 * 60
  {
    DatesCompareByTheClock(w, a, 1730613000, b, 1730614200);
  }

  /** `between` includes both ends. */
  lemma BetweenIncludesBothEnds(x: Value, low: Value, high: Value)
    requires TypeOf(x) == TypeOf(low) == TypeOf(high)
    ensures Holds(InRange(x, [low, high])) <==> Holds(Compare(Gte, x, low)) && Holds(Compare(Lte, x, high))
    ensures InRange(x, [low, high]).Value?
  {
    ComparisonIsTotal(x, low);
    ComparisonIsTotal(x, high);
  }

  predicate OccursAt(s: string, p: string, i: int) { 0 <= i <= |s| - |p| && s[i..i + |p|] == p }

  lemma {:induction false} ContainsFindsEveryPosition(s: string, p: string)
    ensures ContainsText(s, p) <==> exists i :: OccursAt(s, p, i)
    decreases s
  {
    if StartsWithText(s, p) {
      assert OccursAt(s, p, 0);
    }
    if s != [] {
      ContainsFindsEveryPosition(s[1..], p);
      if i :| OccursAt(s[1..], p, i) {
        assert s[1..][i..i + |p|] == s[i + 1..i + 1 + |p|];
        assert OccursAt(s, p, i + 1);
      }
      if i :| OccursAt(s, p, i) {
        if i == 0 {
          assert s[..|p|] == p;
        } else {
          assert s[1..][i - 1..i - 1 + |p|] == s[i..i + |p|];
          assert OccursAt(s[1..], p, i - 1);
        }
      }
    }
  }

  // ----- rules -----

  /** What an operator says of a magnitude - a number, the clock time of a date, a length - and its operands. */
  predicate MagnitudeSays(op: Operator, x: real, e: seq<real>) {
    match op
    case Exists => true
    case In => exists k :: 0 <= k < |e| && e[k] == x
    case Between | LengthBetween => |e| >= 2 && e[0] <= x <= e[1]
    case Eq | Exact | LengthEq => |e| >= 1 && x == e[0]
    case Ne | NotExact | LengthNe => |e| >= 1 && x != e[0]
    case Gt | After | LengthGt => |e| >= 1 && x > e[0]
    case Gte | AfterOrEqual | LengthGte => |e| >= 1 && x >= e[0]
    case Lt | Before | LengthLt => |e| >= 1 && x < e[0]
    case Lte | BeforeOrEqual | LengthLte => |e| >= 1 && x <= e[0]
    case _ => false
  }

  /** What an operator says of a text and its operands, all of them normalized. */
  ghost predicate TextSays(op: Operator, s: string, e: seq<string>) {
    match op
    case Exists => true
    case Empty => s == ""
    case NotEmpty => s != ""
    case In => exists k :: 0 <= k < |e| && e[k] == s
    case Exact | Eq => |e| >= 1 && s == e[0]
    case NotExact | Ne => |e| >= 1 && s != e[0]
    case Contains => |e| >= 1 && exists i :: OccursAt(s, e[0], i)
    case StartsWith => |e| >= 1 && OccursAt(s, e[0], 0)
    case EndsWith => |e| >= 1 && OccursAt(s, e[0], |s| - |e[0]|)
    case Gt | After => |e| >= 1 && Precedes(e[0], s)
    case Lt | Before => |e| >= 1 && Precedes(s, e[0])
    case Gte | AfterOrEqual => |e| >= 1 && !Precedes(s, e[0])
    case Lte | BeforeOrEqual => |e| >= 1 && !Precedes(e[0], s)
    case _ => false
  }

  function Magnitude(v: Value): real {
    match v
    case NumberValue(n) => n
    case DatetimeValue(wall) => wall as real
    case TextValue(_) => 0.0
  }

  function Magnitudes(values: seq<Value>): (r: seq<real>)
    ensures |r| == |values|
  {
    seq(|values|, k requires 0 <= k < |values| => Magnitude(values[k]))
  }

  lemma OperandHasType(w: World, operand: Operand, vars: Variables, t: ValueType)
    ensures Resolve(w, operand, vars, t).Value? ==> TypeOf(Resolve(w, operand, vars, t).v) == t
  {
  }

  lemma {:induction false} OperandsHaveType(w: World, operands: seq<Operand>, vars: Variables, t: ValueType)
    ensures var r := ResolveAll(w, operands, vars, t);
            r.Value? ==> forall k :: 0 <= k < |r.v| ==> TypeOf(r.v[k]) == t
    decreases operands
  {
    if operands != [] {
      OperandsHaveType(w, operands[1..], vars, t);
      OperandHasType(w, operands[0], vars, t);
      var r, rest := ResolveAll(w, operands, vars, t), ResolveAll(w, operands[1..], vars, t);
      if r.Value? {
        assert r.v == [Resolve(w, operands[0], vars, t).v] + rest.v;
      }
    }
  }

  /** Values of one type other than text compare as their magnitudes do. */
  lemma MagnitudesDecide(op: Operator, x: Value, e: seq<Value>)
    requires !x.TextValue? && forall k :: 0 <= k < |e| ==> TypeOf(e[k]) == TypeOf(x)
    ensures InRange(x, e).Value? && (op.Between? || op.LengthBetween?) ==>
              (InRange(x, e).v <==> MagnitudeSays(op, Magnitude(x), Magnitudes(e)))
    ensures op.In? ==> (x in e <==> MagnitudeSays(op, Magnitude(x), Magnitudes(e)))
    ensures e != [] && Compare(op, x, e[0]).Value? ==>
              (Compare(op, x, e[0]).v <==> MagnitudeSays(op, Magnitude(x), Magnitudes(e)))
  {
    var m := Magnitudes(e);
    assert forall k :: 0 <= k < |e| ==> m[k] == Magnitude(e[k]) && (e[k] == x <==> m[k] == Magnitude(x));
  }

  /** A decided rule about a number or a date says what its operator says of the magnitudes. */
  lemma MagnitudeRulesMeanWhatTheySay(w: World, rule: Rule, vars: Variables, b: Budget)
    requires !rule.valueType.Text? && EvaluateRule(w, rule, vars, b).0.Value?
    ensures rule.variable in vars && TypeOf(vars[rule.variable].value) == rule.valueType
    ensures var x, e := vars[rule.variable].value, ResolveAll(w, rule.operands, vars, rule.valueType);
            && (rule.operator.Exists? || e.Value?)
            && (EvaluateRule(w, rule, vars, b).0.v
                <==> MagnitudeSays(rule.operator, Magnitude(x), if e.Value? then Magnitudes(e.v) else []))
  {
    var x, e := vars[rule.variable].value, ResolveAll(w, rule.operands, vars, rule.valueType);
    OperandsHaveType(w, rule.operands, vars, rule.valueType);
    if e.Value? {
      MagnitudesDecide(rule.operator, x, e.v);
      hide MagnitudeSays, Compare, InRange, ResolveAll;
    }
  }

  /** A decided rule about the length of a text counts its graphemes. */
  lemma LengthRulesMeanWhatTheySay(w: World, rule: Rule, vars: Variables, b: Budget)
    requires rule.valueType.Text? && IsLength(rule.operator) && EvaluateRule(w, rule, vars, b).0.Value?
    ensures rule.variable in vars && vars[rule.variable].value.TextValue?
    ensures var n := w.graphemes(w.normalize(vars[rule.variable].value.text, rule.normalization));
            var e := ResolveAll(w, rule.operands, vars, Number);
            && n.Some? && e.Value?
            && (EvaluateRule(w, rule, vars, b).0.v <==> MagnitudeSays(rule.operator, n.value as real, Magnitudes(e.v)))
  {
    var x, e := vars[rule.variable].value, ResolveAll(w, rule.operands, vars, Number);
    var n := w.graphemes(w.normalize(x.text, rule.normalization));
    OperandsHaveType(w, rule.operands, vars, Number);
    if n.Some? && e.Value? {
      MagnitudesDecide(rule.operator, NumberValue(n.value as real), e.v);
      hide MagnitudeSays, Compare, InRange, ResolveAll;
    }
  }

  /** Any other decided rule about a text says what its operator says of the normalized texts. */
  lemma TextRulesMeanWhatTheySay(w: World, rule: Rule, vars: Variables, b: Budget)
    requires rule.valueType.Text? && !IsLength(rule.operator) && !rule.operator.Regex?
    requires EvaluateRule(w, rule, vars, b).0.Value?
    ensures rule.variable in vars && vars[rule.variable].value.TextValue?
    ensures var s := w.normalize(vars[rule.variable].value.text, rule.normalization);
            var e := ResolveAll(w, rule.operands, vars, Text);
            && (IsUnary(rule.operator) || e.Value?)
            && (EvaluateRule(w, rule, vars, b).0.v
                <==> TextSays(rule.operator, s, if e.Value? then NormalizeAll(w, e.v, rule.normalization) else []))
  {
    var s := w.normalize(vars[rule.variable].value.text, rule.normalization);
    var e := ResolveAll(w, rule.operands, vars, Text);
    if e.Value? && !IsUnary(rule.operator) {
      var expected := NormalizeAll(w, e.v, rule.normalization);
      if expected != [] {
        TextsDecide(rule.operator, s, expected);
      }
      hide TextSays, Compare, ResolveAll, NormalizeAll, ContainsText, StartsWithText, EndsWithText;
    }
  }

  lemma TextsDecide(op: Operator, s: string, e: seq<string>)
    requires e != []
    ensures op.Contains? ==> (ContainsText(s, e[0]) <==> TextSays(op, s, e))
    ensures op.StartsWith? ==> (StartsWithText(s, e[0]) <==> TextSays(op, s, e))
    ensures op.EndsWith? ==> (EndsWithText(s, e[0]) <==> TextSays(op, s, e))
    ensures !IsLength(op) && Compare(op, TextValue(s), TextValue(e[0])).Value? ==>
              (Compare(op, TextValue(s), TextValue(e[0])).v <==> TextSays(op, s, e))
  {
    ContainsFindsEveryPosition(s, e[0]);
    if !IsLength(op) && Compare(op, TextValue(s), TextValue(e[0])).Value? {
      ComparedTexts(op, s, e);
    }
    hide Compare, ContainsText, Precedes;
  }

  lemma ComparedTexts(op: Operator, s: string, e: seq<string>)
    requires e != [] && !IsLength(op) && Compare(op, TextValue(s), TextValue(e[0])).Value?
    ensures Compare(op, TextValue(s), TextValue(e[0])).v <==> TextSays(op, s, e)
  {
    TextIsTotallyOrdered(s, e[0]);
    TextOrder(s, e[0]);
    TextOrder(e[0], s);
    hide LessText, Precedes, OccursAt;
  }

  // ----- regular expressions -----

  /** The engine is asked: nothing is too long, and the budget of the condition is not used up. */
  predicate Asks(pattern: string, input: string, b: Budget) { |pattern| <= 500 && |input| <= 16384 && b.remaining > 0 }

  /** What the engine answers: nothing if it fails, else what it found, if anything. */
  function Answer(w: World, rule: Rule, pattern: string, input: string, b: Budget): Match {
    w.regex(b.tick, pattern, rule.regex.GetOr(RegexConfig(false, false, false)), input, None)
  }

  /** A decided rule with a regular expression: the pattern as it stands was found in the normalized text. */
  lemma RegexRulesMeanWhatTheySay(w: World, rule: Rule, vars: Variables, b: Budget)
    requires rule.valueType.Text? && rule.operator.Regex? && EvaluateRule(w, rule, vars, b).0.Value?
    ensures rule.variable in vars && vars[rule.variable].value.TextValue?
    ensures var s, e := w.normalize(vars[rule.variable].value.text, rule.normalization), ResolveAll(w, rule.operands, vars, Text);
            && e.Value? && e.v != [] && e.v[0].TextValue? && Asks(e.v[0].text, s, b)
            && var found := Answer(w, rule, e.v[0].text, s, b).outcome;
               found.Some? && (EvaluateRule(w, rule, vars, b).0.v <==> found.value.Some?)
  {
    OperandsHaveType(w, rule.operands, vars, Text);
    hide ResolveAll, NormalizeAll, EvaluateLength, EvaluateOrdered, Compare;
  }

  // ----- what any rule says -----

  /** What a rule says of the variables; only a regular expression depends on the budget and the call it makes. */
  ghost predicate Says(w: World, rule: Rule, vars: Variables, b: Budget) {
    && rule.variable in vars && TypeOf(vars[rule.variable].value) == rule.valueType
    && var x, op := vars[rule.variable].value, rule.operator;
       if op.Exists? then true
       else if !rule.valueType.Text? then
         var e := ResolveAll(w, rule.operands, vars, rule.valueType);
         e.Value? && !op.LengthBetween? && MagnitudeSays(op, Magnitude(x), Magnitudes(e.v))
       else SaysOfText(w, rule, w.normalize(TextOf(x), rule.normalization), vars, b)
  }

  ghost predicate SaysOfText(w: World, rule: Rule, s: string, vars: Variables, b: Budget) {
    if IsUnary(rule.operator) then TextSays(rule.operator, s, [])
    else if IsLength(rule.operator) then SaysOfLength(w, rule, w.graphemes(s), vars)
    else
      var e := ResolveAll(w, rule.operands, vars, Text);
      && e.Value?
      && if rule.operator.Regex? then
           e.v != [] && Asks(TextOf(e.v[0]), s, b)
           && Answer(w, rule, TextOf(e.v[0]), s, b).outcome.Some?
           && Answer(w, rule, TextOf(e.v[0]), s, b).outcome.value.Some?
         else TextSays(rule.operator, s, NormalizeAll(w, e.v, rule.normalization))
  }

  predicate SaysOfLength(w: World, rule: Rule, n: Option<nat>, vars: Variables) {
    var e := ResolveAll(w, rule.operands, vars, Number);
    && n.Some? && e.Value? && (forall k :: 0 <= k < |e.v| ==> IsLengthValue(e.v[k]))
    && MagnitudeSays(rule.operator, n.value as real, Magnitudes(e.v))
  }

  /** A rule holds, in whatever state of the budget, exactly if what it says is so; errors say nothing. */
  lemma RuleSays(w: World, rule: Rule, vars: Variables, b: Budget)
    ensures Holds(EvaluateRule(w, rule, vars, b).0) <==> Says(w, rule, vars, b)
  {
    hide ResolveAll, NormalizeAll, EvaluateText, EvaluateLength, EvaluateOrdered, MagnitudeSays, TextSays, Magnitudes, SaysOfText;
    if rule.variable in vars && TypeOf(vars[rule.variable].value) == rule.valueType && !rule.operator.Exists? {
      var x := vars[rule.variable].value;
      if !rule.valueType.Text? {
        OrderedSays(w, rule, x, vars);
      } else {
        TextRuleSays(w, rule, w.normalize(TextOf(x), rule.normalization), vars, b);
      }
    }
  }

  lemma OrderedSays(w: World, rule: Rule, x: Value, vars: Variables)
    requires TypeOf(x) == rule.valueType && !rule.valueType.Text? && !rule.operator.Exists?
    ensures var e := ResolveAll(w, rule.operands, vars, rule.valueType);
            Holds(EvaluateOrdered(w, rule, x, vars))
            <==> e.Value? && !rule.operator.LengthBetween? && MagnitudeSays(rule.operator, Magnitude(x), Magnitudes(e.v))
  {
    var e := ResolveAll(w, rule.operands, vars, rule.valueType);
    OperandsHaveType(w, rule.operands, vars, rule.valueType);
    if e.Value? {
      MagnitudesDecide(rule.operator, x, e.v);
    }
  }

  lemma LengthSays(w: World, rule: Rule, s: string, vars: Variables)
    requires IsLength(rule.operator)
    ensures Holds(EvaluateLength(w, rule, s, vars)) <==> SaysOfLength(w, rule, w.graphemes(s), vars)
  {
    hide ResolveAll, MagnitudeSays, Compare, InRange, Magnitudes, IsLengthValue;
    var n, e := w.graphemes(s), ResolveAll(w, rule.operands, vars, Number);
    if n.Some? && e.Value? {
      OperandsHaveType(w, rule.operands, vars, Number);
      assert forall k :: 0 <= k < |e.v| ==> TypeOf(e.v[k]) == Number;
      MagnitudesDecide(rule.operator, NumberValue(n.value as real), e.v);
      LengthsAreDecided(rule.operator, n.value, e.v);
    }
  }

  lemma LengthsAreDecided(op: Operator, n: nat, e: seq<Value>)
    requires IsLength(op)
    ensures e != [] && !op.LengthBetween? ==> Compare(op, NumberValue(n as real), e[0]).Value?
    ensures e == [] ==> !MagnitudeSays(op, n as real, Magnitudes(e))
    ensures |e| < 2 && op.LengthBetween? ==> !MagnitudeSays(op, n as real, Magnitudes(e)) && !Holds(InRange(NumberValue(n as real), e))
    ensures |e| >= 2 ==> InRange(NumberValue(n as real), e).Value?
    ensures Magnitude(NumberValue(n as real)) == n as real
  {
  }

  lemma TextRuleSays(w: World, rule: Rule, s: string, vars: Variables, b: Budget)
    requires rule.valueType.Text? && !rule.operator.Exists?
    ensures var r := if rule.operator.Empty? then Value(s == "")
                     else if rule.operator.NotEmpty? then Value(s != "")
                     else if IsLength(rule.operator) then EvaluateLength(w, rule, s, vars)
                     else EvaluateText(w, rule, s, vars, b).0;
            Holds(r) <==> SaysOfText(w, rule, s, vars, b)
  {
    hide ResolveAll, MagnitudeSays, EvaluateLength, SaysOfLength, Magnitudes, ContainsText, StartsWithText, EndsWithText;
    if IsLength(rule.operator) {
      LengthSays(w, rule, s, vars);
    } else {
      var e := ResolveAll(w, rule.operands, vars, Text);
      OperandsHaveType(w, rule.operands, vars, Text);
      if e.Value? && e.v != [] {
        TextsDecide(rule.operator, s, NormalizeAll(w, e.v, rule.normalization));
      }
    }
  }

  // ----- the budget of a condition -----

  /** What a rule leaves of the budget: only a call of the regular expression engine costs anything. */
  function Charged(w: World, rule: Rule, vars: Variables, b: Budget): Budget {
    if rule.variable in vars && vars[rule.variable].value.TextValue? && rule.valueType.Text? && rule.operator.Regex? then
      var s := w.normalize(vars[rule.variable].value.text, rule.normalization);
      match ResolveAll(w, rule.operands, vars, Text)
      case Value(e) =>
        if e != [] && Asks(TextOf(e[0]), s, b) then
          var elapsed := Answer(w, rule, TextOf(e[0]), s, b).elapsed;
          Budget(if elapsed < b.remaining then b.remaining - elapsed else 0, b.tick + 1)
        else b
      case _ => b
    else b
  }

  lemma RuleCharges(w: World, rule: Rule, vars: Variables, b: Budget)
    ensures EvaluateRule(w, rule, vars, b).1 == Charged(w, rule, vars, b)
  {
    hide ResolveAll, NormalizeAll, EvaluateLength, EvaluateOrdered, Compare;
  }

  /** The budget that the rules before `k` leave, if all of them are judged. */
  function LeftBefore(w: World, rules: seq<Rule>, vars: Variables, b: Budget, k: nat): Budget
    requires k <= |rules|
  {
    if k == 0 then b else LeftBefore(w, rules[1..], vars, Charged(w, rules[0], vars, b), k - 1)
  }

  // ----- branches -----

  /** All rules of a branch hold, or any, each judged with the budget that those before it leave. */
  ghost predicate Satisfied(w: World, rules: seq<Rule>, all: bool, vars: Variables, b: Budget) {
    if all then forall k :: 0 <= k < |rules| ==> Says(w, rules[k], vars, LeftBefore(w, rules, vars, b, k))
    else exists k :: 0 <= k < |rules| && Says(w, rules[k], vars, LeftBefore(w, rules, vars, b, k))
  }

  /** The budget that a branch leaves: its rules are judged up to the first that decides. */
  ghost function Left(w: World, rules: seq<Rule>, all: bool, vars: Variables, b: Budget): Budget {
    if rules == [] then b
    else
      var rest := Charged(w, rules[0], vars, b);
      if Says(w, rules[0], vars, b) == all then Left(w, rules[1..], all, vars, rest) else rest
  }

  lemma SatisfiedFirst(w: World, rules: seq<Rule>, all: bool, vars: Variables, b: Budget)
    requires rules != []
    ensures var rest := Charged(w, rules[0], vars, b);
            Satisfied(w, rules, all, vars, b)
            <==> if all then Says(w, rules[0], vars, b) && Satisfied(w, rules[1..], all, vars, rest)
                 else Says(w, rules[0], vars, b) || Satisfied(w, rules[1..], all, vars, rest)
  {
    var later, rest := rules[1..], Charged(w, rules[0], vars, b);
    assert LeftBefore(w, rules, vars, b, 0) == b;
    forall k | 0 < k < |rules|
      ensures LeftBefore(w, rules, vars, b, k) == LeftBefore(w, later, vars, rest, k - 1) && rules[k] == later[k - 1]
    {
    }
    hide Says, Charged, LeftBefore;
    if k :| 0 <= k < |later| && Says(w, later[k], vars, LeftBefore(w, later, vars, rest, k)) {
      assert Says(w, rules[k + 1], vars, LeftBefore(w, rules, vars, b, k + 1));
    }
    if Satisfied(w, rules, true, vars, b) {
      forall k | 0 <= k < |later|
        ensures Says(w, later[k], vars, LeftBefore(w, later, vars, rest, k))
      {
        assert Says(w, rules[k + 1], vars, LeftBefore(w, rules, vars, b, k + 1));
      }
    }
  }

  /** A branch that is decided matches exactly if all, or any, of its rules hold. */
  lemma {:induction false} RulesMeaning(w: World, rules: seq<Rule>, all: bool, s: Scratch)
    ensures var (r, s') := EvaluateRules(w, rules, all, all, false, s);
            && s'.vars == s.vars
            && (r.Value? ==>
                  (r.v <==> Satisfied(w, rules, all, s.vars, s.budget)) && s'.budget == Left(w, rules, all, s.vars, s.budget))
    decreases rules
  {
    hide EvaluateRule, Says, Charged, Satisfied;
    if rules == [] {
      NoRules(w, all, s.vars, s.budget);
    } else {
      RuleSays(w, rules[0], s.vars, s.budget);
      RuleCharges(w, rules[0], s.vars, s.budget);
      SatisfiedFirst(w, rules, all, s.vars, s.budget);
      var (r, b) := EvaluateRule(w, rules[0], s.vars, s.budget);
      RulesMeaning(w, rules[1..], all, Scratch(s.vars, b, s.notes + [Evaluated(r)]));
    }
  }

  lemma NoRules(w: World, all: bool, vars: Variables, b: Budget)
    ensures Satisfied(w, [], all, vars, b) <==> all
  {
  }

  /** The budget with which branch `k` is judged. */
  ghost function BranchBudget(w: World, branches: seq<Branch>, vars: Variables, b: Budget, k: nat): Budget
    requires k <= |branches|
  {
    if k == 0 then b
    else BranchBudget(w, branches[1..], vars, Left(w, branches[0].rules, branches[0].all, vars, b), k - 1)
  }

  /** Branch `k` is an else branch, or its rules hold. */
  ghost predicate Matched(w: World, branches: seq<Branch>, vars: Variables, b: Budget, k: nat)
    requires k < |branches|
  {
    branches[k].kind.Else?
    || Satisfied(w, branches[k].rules, branches[k].all, vars, BranchBudget(w, branches, vars, b, k))
  }

  /** Branch `k` is the first one that is an else branch or whose rules hold. */
  ghost predicate FirstMatch(w: World, branches: seq<Branch>, vars: Variables, b: Budget, k: nat) {
    && k < |branches| && Matched(w, branches, vars, b, k)
    && forall j :: 0 <= j < k ==> !Matched(w, branches, vars, b, j)
  }

  lemma MatchedLater(w: World, branches: seq<Branch>, vars: Variables, b: Budget, k: nat)
    requires 0 < k < |branches|
    ensures Matched(w, branches, vars, b, k)
            <==> Matched(w, branches[1..], vars, Left(w, branches[0].rules, branches[0].all, vars, b), k - 1)
  {
    hide Satisfied, Left;
    assert branches[1..][k - 1] == branches[k];
  }

  lemma FirstMatchLater(w: World, branches: seq<Branch>, vars: Variables, b: Budget, k: nat)
    requires branches != [] && !Matched(w, branches, vars, b, 0)
    requires FirstMatch(w, branches[1..], vars, Left(w, branches[0].rules, branches[0].all, vars, b), k)
    ensures FirstMatch(w, branches, vars, b, k + 1)
  {
    hide Matched, Left;
    MatchedLater(w, branches, vars, b, k + 1);
    forall j | 0 <= j < k + 1
      ensures !Matched(w, branches, vars, b, j)
    {
      if j > 0 { MatchedLater(w, branches, vars, b, j); }
    }
  }

  lemma {:induction false} NonStrictTakesFirstMatch(w: World, branches: seq<Branch>, index: nat, s: Scratch)
    ensures var (r, s') := SelectFrom(w, branches, index, false, s);
            && s'.vars == s.vars
            && (r.Value? ==> FirstMatch(w, branches, s.vars, s.budget, r.v - index))
    decreases branches
  {
    hide Satisfied, EvaluateRules, Left;
    if branches != [] && !branches[0].kind.Else? {
      RulesMeaning(w, branches[0].rules, branches[0].all, s);
      var (m, s') := EvaluateRules(w, branches[0].rules, branches[0].all, branches[0].all, false, s);
      if m == Value(false) {
        NonStrictTakesFirstMatch(w, branches[1..], index + 1, s');
        var r := SelectFrom(w, branches[1..], index + 1, false, s').0;
        if r.Value? {
          FirstMatchLater(w, branches, s.vars, s.budget, r.v - (index + 1));
        }
      }
    }
  }

  /**
   * Whatever branch a condition selects, strictly or not, is the first one that is an else branch or
   * whose rules hold - all of them, or any, as the branch says - of the variables that the extractions
   * leave behind, each rule judged with what the extractions and the rules before it leave of the budget.
   */
  lemma FirstMatchIsTaken(w: World, step: Step, strict: bool, input: Input, s: Scratch)
    requires step.Condition? && SelectBranch(w, step, strict, input, s).0.Value?
    ensures var (r, s'), b := SelectBranch(w, step, strict, input, s), ExtractAll(w, step.extracts, strict, input, s).1.budget;
            FirstMatch(w, step.branches, s'.vars, b, r.v)
    ensures var (r, s'), b := SelectBranch(w, step, strict, input, s), ExtractAll(w, step.extracts, strict, input, s).1.budget;
            forall k :: FirstMatch(w, step.branches, s'.vars, b, k) ==> k == r.v
  {
    hide Matched, SelectFrom, ExtractAll;
    var extracted := ExtractAll(w, step.extracts, strict, input, s).1;
    if strict {
      Strictness.StrictBranchesAgree(w, step.branches, 0, extracted);
    }
    NonStrictTakesFirstMatch(w, step.branches, 0, extracted);
  }
}
