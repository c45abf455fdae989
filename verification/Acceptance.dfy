/** The checker accepts a workflow if and only if it is well formed. */
module Acceptance {
  import opened Wrappers
  import opened Workflow
  import opened Checker
  import opened WellFormed
  import opened SourceSoundness

  // ----- scopes and what is known -----

  ghost predicate MapFits(m: Types, names: Names) {
    forall n, t :: (n, t) in names <==> n in m && m[n] == t
  }

  /** The scope of the checker says what is known, and whether a wait has happened. */
  ghost predicate ScopeFits(s: Scope, known: Names, waited: bool) {
    MapFits(s.possible, known) && (s.hasWait <==> waited)
  }

  lemma KnownAfter(past: seq<Prior>, p: Prior)
    ensures Known(past + [p]) == Known(past) + PriorDeclares(p)
    ensures HasWaited(past + [p])
            <==> HasWaited(past) || match p case Passed(step) => Waits(step) case Entered(_) => false case LegacyStart => true
  {
    assert (past + [p])[..|past|] == past;
  }

  lemma MapNames(m: Types, names: Names, n: string)
    requires MapFits(m, names)
    ensures n in m <==> IsKnown(names, n)
    ensures n in m ==> (n, m[n]) in names
  {
  }

  // ----- single steps -----

  lemma TextsChecked(g: Grammar, texts: seq<string>, m: Types, names: Names)
    requires MapFits(m, names)
    ensures TemplatesOk(g, texts, m)
            <==> forall k, n :: 0 <= k < |texts| && n in g.templateNames(texts[k]) ==> IsKnown(names, n)
  {
    forall n
      ensures n in m.Keys <==> IsKnown(names, n)
    {
      MapNames(m, names, n);
    }
  }

  /** The texts of a step, checked together. */
  lemma MentionsChecked(g: Grammar, step: Step, m: Types, names: Names)
    requires MapFits(m, names)
    ensures TemplatesOk(g, Texts(step), m) <==> forall n :: Mentions(g, step, n) ==> IsKnown(names, n)
  {
    TextsChecked(g, Texts(step), m, names);
  }

  lemma HttpTexts(g: Grammar, step: Step, m: Types)
    requires step.Http?
    ensures TemplatesOk(g, Texts(step), m)
            <==> && TemplateOk(g, step.url, m) && TemplatesOk(g, step.headers, m)
                 && (step.body.Some? ==> TemplateOk(g, step.body.value, m))
  {
    var texts := Texts(step);
    assert texts[0] == step.url;
    assert forall k :: 0 <= k < |step.headers| ==> texts[k + 1] == step.headers[k];
    if step.body.Some? {
      assert texts[|step.headers| + 1] == step.body.value;
    }
    assert forall k :: 0 <= k < |texts| ==>
      texts[k] == if k == 0 then step.url else if k <= |step.headers| then step.headers[k - 1] else step.body.value;
  }

  lemma ExtractionChecked(g: Grammar, e: Extraction, declared: Types, names: Names, m: Types, known: Names)
    requires MapFits(declared, names) && MapFits(m, known)
    ensures ExtractOk(g, e, declared, m) <==> Extractable(g, e) && !IsKnown(known, e.name) && !IsKnown(names, e.name)
  {
    MapNames(declared, names, e.name);
    MapNames(m, known, e.name);
  }

  lemma PlainChecked(g: Grammar, step: Step, m: Types, known: Names)
    requires !step.Condition? && MapFits(m, known)
    ensures PlainStepOk(g, step, m) <==> StepFits(g, step, known)
  {
    MentionsChecked(g, step, m, known);
    hide MapFits, Mentions, IsKnown, TemplateOk, ExtractOk, Extractable;
    match step
    case Send(_, FixedText(text)) => assert TemplatesOk(g, [text], m) <==> TemplateOk(g, text, m) by { assert [text][0] == text; }
    case Http(_, _, _, _, _) => HttpTexts(g, step, m);
    case Extract(_, _, _, _, _) =>
      assert Texts(step) == [];
      ExtractStepChecked(g, step, m, known);
    case _ =>
  }

  lemma ExtractStepChecked(g: Grammar, step: Step, m: Types, known: Names)
    requires step.Extract? && MapFits(m, known)
    ensures ExtractOk(g, Declared(step), map[], m)
            <==> Extractable(g, Effective(step)) && !IsKnown(known, step.extraction.name)
  {
    assert MapFits(map[], {});
    ExtractionChecked(g, Declared(step), map[], {}, m, known);
    assert !IsKnown({}, step.extraction.name);
    assert Declared(step) == Effective(step);
  }

  lemma PlainScopeFits(step: Step, s: Scope, known: Names, waited: bool)
    requires !step.Condition? && ScopeFits(s, known, waited)
    requires step.Extract? ==> !IsKnown(known, step.extraction.name)
    ensures ScopeFits(PlainScope(step, s), known + Declares(step), waited || Waits(step))
  {
    if step.Extract? {
      MapNames(s.possible, known, step.extraction.name);
    }
  }

  // ----- the extractions of a condition -----

  /** Extractions whose names are new, given those before them. */
  ghost predicate AllNew(g: Grammar, extracts: seq<Extraction>, names: Names, known: Names) {
    && (forall k :: 0 <= k < |extracts| ==>
          && Extractable(g, extracts[k]) && !IsKnown(known, extracts[k].name) && !IsKnown(names, extracts[k].name))
    && (forall j, k :: 0 <= j < k < |extracts| ==> extracts[j].name != extracts[k].name)
  }

  lemma AllNewFirst(g: Grammar, extracts: seq<Extraction>, names: Names, known: Names)
    requires extracts != []
    ensures var e := extracts[0];
            AllNew(g, extracts, names, known)
            <==> && Extractable(g, e) && !IsKnown(known, e.name) && !IsKnown(names, e.name)
                 && AllNew(g, extracts[1..], names + {(e.name, e.valueType)}, known)
  {
    var e, rest, more := extracts[0], extracts[1..], names + {(extracts[0].name, extracts[0].valueType)};
    hide Extractable;
    assert forall n :: IsKnown(more, n) <==> IsKnown(names, n) || n == e.name by {
      forall n
        ensures IsKnown(more, n) <==> IsKnown(names, n) || n == e.name
      {
        assert (e.name, e.valueType) in more;
        if t :| (n, t) in names { assert (n, t) in more; }
      }
    }
    assert forall k :: 1 <= k < |extracts| ==> extracts[k] == rest[k - 1];
    assert forall k :: 0 <= k < |rest| ==> rest[k] == extracts[k + 1];
  }

  lemma {:induction false} DeclareChecked(g: Grammar, extracts: seq<Extraction>, declared: Types, names: Names,
                                          m: Types, known: Names)
    requires MapFits(declared, names) && MapFits(m, known)
    ensures Declare(g, extracts, declared, m).Some? <==> AllNew(g, extracts, names, known)
    ensures Declare(g, extracts, declared, m).Some? ==>
              MapFits(Declare(g, extracts, declared, m).value, names + Named(extracts))
    decreases extracts
  {
    hide ExtractOk, AllNew, MapFits;
    if extracts == [] {
      assert names + {} == names;
      NothingNew(g, names, known);
    } else {
      var e := extracts[0];
      AllNewFirst(g, extracts, names, known);
      ExtractionChecked(g, e, declared, names, m, known);
      if ExtractOk(g, e, declared, m) {
        OneMoreFits(declared, names, e.name, e.valueType);
        var more := names + {(e.name, e.valueType)};
        DeclareChecked(g, extracts[1..], declared[e.name := e.valueType], more, m, known);
        assert more + Named(extracts[1..]) == names + Named(extracts);
      }
    }
  }

  lemma NothingNew(g: Grammar, names: Names, known: Names)
    ensures AllNew(g, [], names, known)
  {
  }

  lemma OneMoreFits(m: Types, names: Names, n: string, t: ValueType)
    requires MapFits(m, names) && !IsKnown(names, n)
    ensures MapFits(m[n := t], names + {(n, t)})
  {
  }

  /** Two scopes without a common name. */
  lemma DisjointFits(m: Types, known: Names, declared: Types, names: Names)
    requires MapFits(m, known) && MapFits(declared, names) && forall n :: IsKnown(names, n) ==> !IsKnown(known, n)
    ensures MapFits(m + declared, known + names)
  {
    forall n
      ensures (n in declared <==> IsKnown(names, n)) && (n in m <==> IsKnown(known, n))
    {
      MapNames(declared, names, n);
      MapNames(m, known, n);
    }
  }

  lemma {:induction false} NamedIs(extracts: seq<Extraction>, n: string)
    ensures IsKnown(Named(extracts), n) <==> exists k :: 0 <= k < |extracts| && extracts[k].name == n
    decreases extracts
  {
    if extracts != [] {
      NamedIs(extracts[1..], n);
      assert Named(extracts) == {(extracts[0].name, extracts[0].valueType)} + Named(extracts[1..]);
      if t :| (n, t) in Named(extracts[1..]) { assert (n, t) in Named(extracts); }
      assert (extracts[0].name, extracts[0].valueType) in Named(extracts);
      if k :| 0 <= k < |extracts[1..]| && extracts[1..][k].name == n { assert extracts[k + 1].name == n; }
      assert forall k :: 1 <= k < |extracts| ==> extracts[k] == extracts[1..][k - 1];
    }
  }

  // ----- rules -----

  lemma LengthsAreListed(op: Operator)
    ensures IsLength(op) <==> op in LENGTHS()
  {
  }

  lemma TextIsListed(op: Operator)
    ensures Allowed(Text, op) <==> op in Operators(Text)
  {
    LengthsAreListed(op);
    hide LENGTHS, IsLength;
  }

  lemma NumberIsListed(op: Operator)
    ensures Allowed(Number, op) <==> op in Operators(Number)
  {
    hide LENGTHS, IsLength;
  }

  lemma DatetimeIsListed(op: Operator)
    ensures Allowed(Datetime, op) <==> op in Operators(Datetime)
  {
    hide LENGTHS, IsLength;
  }

  lemma CountsAreListed(op: Operator, n: nat)
    ensures !op.Other? ==> (OperandCountOk(op, n) <==> TakesOperands(op, n))
  {
  }

  lemma AllowedIsListed(t: ValueType, op: Operator)
    ensures Allowed(t, op) <==> op in Operators(t)
    ensures IsLength(op) <==> op in LENGTHS()
    ensures Allowed(t, op) ==> !op.Other?
  {
    LengthsAreListed(op);
    if t.Text? {
      TextIsListed(op);
    } else if t.Number? {
      NumberIsListed(op);
    } else {
      DatetimeIsListed(op);
    }
    hide LENGTHS, Operators;
  }

  lemma RuleChecked(g: Grammar, rule: Rule, m: Types, known: Names)
    requires MapFits(m, known)
    ensures RuleOk(g, rule, m) <==> RuleFits(g, rule, known)
  {
    hide Allowed, Operators, LENGTHS, IsLength, OperandCountOk, TakesOperands;
    AllowedIsListed(rule.valueType, rule.operator);
    CountsAreListed(rule.operator, |rule.operands|);
    if rule.operator in Operators(rule.valueType) && rule.operator.Regex? {
      RegexTakesOne();
    }
  }

  lemma RegexTakesOne()
    ensures forall n :: TakesOperands(Regex, n) <==> n == 1
  {
  }

  // ----- branches merged -----

  /** The scopes that the branches of a condition end with. */
  ghost predicate ScopesFit(scopes: seq<Scope>, branches: seq<Branch>, known: Names, waited: bool) {
    && |scopes| == |branches|
    && forall k :: 0 <= k < |scopes| ==>
         ScopeFits(scopes[k], known + StepsDeclare(branches[k].steps), waited || StepsWait(branches[k].steps))
  }

  lemma ConflictIsInconsistent(m: Types, names: Names, p: Types, more: Names)
    requires MapFits(m, names) && MapFits(p, more)
    ensures (exists n :: n in p && n in m && p[n] != m[n]) <==> !Consistent(names + more)
    ensures Consistent(names + more) ==> MapFits(m + p, names + more)
  {
    forall n
      ensures (n in m ==> (n, m[n]) in names) && (n in p ==> (n, p[n]) in more)
    {
      MapNames(m, names, n);
      MapNames(p, more, n);
    }
    if n :| n in p && n in m && p[n] != m[n] {
      assert (n, p[n]) in names + more && (n, m[n]) in names + more;
    }
  }

  lemma LessIsConsistent(names: Names, more: Names)
    requires Consistent(more) && names <= more
    ensures Consistent(names)
  {
  }

  function Inside(branches: seq<Branch>, known: Names): Names {
    if branches == [] then {} else known + BranchesDeclare(branches)
  }

  lemma {:induction false} MergeChecked(scopes: seq<Scope>, branches: seq<Branch>, known: Names, waited: bool,
                                        merged: Types, names: Names)
    requires ScopesFit(scopes, branches, known, waited) && MapFits(merged, names)
    ensures MergePossible(scopes, merged).Some? <==> Consistent(names + Inside(branches, known))
    ensures MergePossible(scopes, merged).Some? ==>
              MapFits(MergePossible(scopes, merged).value, names + Inside(branches, known))
    decreases |scopes|
  {
    hide MapFits, Consistent, StepsDeclare, StepsWait;
    if scopes == [] {
      assert names + {} == names;
      MapIsConsistent(merged, names);
    } else {
      var here := known + StepsDeclare(branches[0].steps);
      ConflictIsInconsistent(merged, names, scopes[0].possible, here);
      var whole := names + Inside(branches, known);
      assert BranchesDeclare(branches) == StepsDeclare(branches[0].steps) + BranchesDeclare(branches[1..]);
      assert names + here <= whole;
      if Consistent(whole) {
        LessIsConsistent(names + here, whole);
      }
      if Consistent(names + here) {
        MergeChecked(scopes[1..], branches[1..], known, waited, merged + scopes[0].possible, names + here);
        assert (names + here) + Inside(branches[1..], known) == whole;
      }
    }
  }

  lemma MapIsConsistent(m: Types, names: Names)
    requires MapFits(m, names)
    ensures Consistent(names)
  {
  }

  lemma {:induction false} BranchesWaitIs(branches: seq<Branch>)
    ensures BranchesWait(branches) <==> forall k :: 0 <= k < |branches| ==> StepsWait(branches[k].steps)
    decreases branches
  {
    hide StepsWait;
    if branches != [] {
      BranchesWaitIs(branches[1..]);
      assert forall k :: 1 <= k < |branches| ==> branches[k] == branches[1..][k - 1];
      assert forall k :: 0 <= k < |branches[1..]| ==> branches[1..][k] == branches[k + 1];
    }
  }

  lemma ConditionMerges(scopes: seq<Scope>, branches: seq<Branch>, known: Names, waited: bool)
    requires branches != [] && ScopesFit(scopes, branches, known, waited)
    ensures Merge(scopes).Some? <==> Consistent(known + BranchesDeclare(branches))
    ensures Merge(scopes).Some? ==>
              ScopeFits(Merge(scopes).value, known + BranchesDeclare(branches), waited || BranchesWait(branches))
  {
    hide Consistent, StepsDeclare, StepsWait, BranchesDeclare, BranchesWait, MergePossible, CommonDefinite;
    assert MapFits(map[], {});
    MergeChecked(scopes, branches, known, waited, map[], {});
    BranchesWaitIs(branches);
    assert {} + Inside(branches, known) == known + BranchesDeclare(branches);
  }

  // ----- depth and node ids -----

  /** What else is asked of a sequence: nesting, and ids that are new, distinct and not too long. */
  predicate RestFits(steps: seq<Step>, depth: nat, ids: set<string>) {
    depth + Depth(steps) <= 3 && Unique(steps) && IdsFit(Ids(steps)) && Ids(steps) !! ids
  }

  predicate StepRestFits(step: Step, depth: nat, ids: set<string>) {
    depth + StepDepth(step) <= 3 && UniqueStep(step) && IdsFit(StepIds(step)) && StepIds(step) !! ids
  }

  predicate BranchesRestFit(branches: seq<Branch>, depth: nat, ids: set<string>) {
    depth + BranchesDepth(branches) <= 3 && UniqueBranches(branches) && IdsFit(BranchIds(branches)) && BranchIds(branches) !! ids
  }

  lemma RestFirst(steps: seq<Step>, depth: nat, ids: set<string>)
    requires steps != []
    ensures RestFits(steps, depth, ids)
            <==> StepRestFits(steps[0], depth, ids) && RestFits(steps[1..], depth, ids + StepIds(steps[0]))
    ensures Ids(steps) == StepIds(steps[0]) + Ids(steps[1..])
  {
    hide StepDepth, UniqueStep, StepIds;
  }

  lemma BranchesRestFirst(branches: seq<Branch>, depth: nat, ids: set<string>)
    requires branches != []
    ensures BranchesRestFit(branches, depth, ids)
            <==> && RestFits(branches[0].steps, depth, ids)
                 && BranchesRestFit(branches[1..], depth, ids + Ids(branches[0].steps))
    ensures BranchIds(branches) == Ids(branches[0].steps) + BranchIds(branches[1..])
  {
    hide Depth, Unique, Ids;
  }

  lemma ConditionRest(step: Step, depth: nat, ids: set<string>)
    requires step.Condition? && depth <= 3
    ensures StepRestFits(step, depth, ids)
            <==> && depth + 1 <= 3 && CheckNodeId(step.nodeId, ids).Some?
                 && BranchesRestFit(step.branches, depth + 1, CheckNodeId(step.nodeId, ids).value)
    ensures CheckNodeId(step.nodeId, ids).Some? ==>
              CheckNodeId(step.nodeId, ids).value + BranchIds(step.branches) == ids + StepIds(step)
  {
    hide BranchesDepth, UniqueBranches, BranchIds;
  }

  lemma PlainRest(step: Step, depth: nat, ids: set<string>)
    requires !step.Condition? && depth <= 3
    ensures StepRestFits(step, depth, ids) <==> CheckNodeId(step.nodeId, ids).Some?
    ensures CheckNodeId(step.nodeId, ids).Some? ==> CheckNodeId(step.nodeId, ids).value == ids + StepIds(step)
  {
  }

  // ----- the checks -----

  /** One pass over a sequence decides whether every step of it fits, and ends with what is then known. */
  lemma {:induction false} StepsChecked(g: Grammar, steps: seq<Step>, depth: nat, s: Scope, ids: set<string>, past: seq<Prior>)
    requires depth <= 3 && ScopeFits(s, Known(past), HasWaited(past))
    ensures var r := CheckSteps(g, steps, depth, s, ids);
            && (r.Some? <==> Fit(g, steps, past) && RestFits(steps, depth, ids))
            && (r.Some? ==>
                  && ScopeFits(r.value.scope, Known(past) + StepsDeclare(steps), HasWaited(past) || StepsWait(steps))
                  && r.value.ids == ids + Ids(steps))
    decreases steps, 0
  {
    hide CheckStep, FitsHere, RestFits, StepRestFits, Declares, Waits, ScopeFits, Ids, StepIds, Known, HasWaited;
    if steps == [] {
      NothingRests(depth, ids);
      assert Known(past) + {} == Known(past) && ids + {} == ids;
    } else {
      RestFirst(steps, depth, ids);
      StepChecked(g, steps[0], depth, s, ids, past);
      var r := CheckStep(g, steps[0], depth, s, ids);
      if r.Some? {
        var next := past + [Passed(steps[0])];
        KnownAfter(past, Passed(steps[0]));
        StepsChecked(g, steps[1..], depth, r.value.scope, r.value.ids, next);
        assert Known(next) + StepsDeclare(steps[1..]) == Known(past) + StepsDeclare(steps);
        assert r.value.ids + Ids(steps[1..]) == ids + Ids(steps);
      }
    }
  }

  lemma NothingRests(depth: nat, ids: set<string>)
    requires depth <= 3
    ensures RestFits([], depth, ids) && Ids([]) == {}
  {
  }

  lemma {:induction false} StepChecked(g: Grammar, step: Step, depth: nat, s: Scope, ids: set<string>, past: seq<Prior>)
    requires depth <= 3 && ScopeFits(s, Known(past), HasWaited(past))
    ensures var r := CheckStep(g, step, depth, s, ids);
            && (r.Some? <==> FitsHere(g, step, past) && StepRestFits(step, depth, ids))
            && (r.Some? ==>
                  && ScopeFits(r.value.scope, Known(past) + Declares(step), HasWaited(past) || Waits(step))
                  && r.value.ids == ids + StepIds(step))
    decreases step, 3
  {
    hide StepRestFits, ScopeFits, StepIds, Known, HasWaited, PlainStepOk, StepFits, Declares, Waits, CheckVersion2, CheckLegacy;
    if step.Condition? {
      ConditionChecked(g, step, depth, s, ids, past);
    } else {
      PlainRest(step, depth, ids);
      PlainStepChecked(g, step, s, Known(past), HasWaited(past));
    }
  }

  lemma PlainStepChecked(g: Grammar, step: Step, s: Scope, known: Names, waited: bool)
    requires !step.Condition? && ScopeFits(s, known, waited)
    ensures PlainStepOk(g, step, s.possible) <==> StepFits(g, step, known)
    ensures StepFits(g, step, known) ==> ScopeFits(PlainScope(step, s), known + Declares(step), waited || Waits(step))
  {
    PlainChecked(g, step, s.possible, known);
    if StepFits(g, step, known) {
      PlainScopeFits(step, s, known, waited);
    }
  }

  lemma {:induction false} ConditionChecked(g: Grammar, step: Step, depth: nat, s: Scope, ids: set<string>, past: seq<Prior>)
    requires step.Condition? && depth <= 3 && ScopeFits(s, Known(past), HasWaited(past))
    ensures var r := CheckStep(g, step, depth, s, ids);
            && (r.Some? <==> FitsHere(g, step, past) && StepRestFits(step, depth, ids))
            && (r.Some? ==>
                  && ScopeFits(r.value.scope, Known(past) + Declares(step), HasWaited(past) || Waits(step))
                  && r.value.ids == ids + StepIds(step))
    decreases step, 2
  {
    hide StepRestFits, ScopeFits, StepIds, Known, HasWaited, BranchesRestFit, FitBranches, ConditionFits, LegacyFits, CheckVersion2, CheckLegacy;
    ConditionRest(step, depth, ids);
    if depth + 1 <= 3 {
      if step.version2 {
        Version2Checked(g, step, depth + 1, s, ids, past);
      } else {
        LegacyChecked(g, step, depth + 1, s, ids, past);
      }
    }
  }

  lemma {:induction false} Version2Checked(g: Grammar, step: Step, depth: nat, s: Scope, ids: set<string>, past: seq<Prior>)
    requires step.Condition? && step.version2 && depth <= 3 && ScopeFits(s, Known(past), HasWaited(past))
    ensures var r, known := CheckVersion2(g, step, depth, s, ids), CheckNodeId(step.nodeId, ids);
            && (r.Some? <==>
                  && ConditionFits(g, step, past) && FitBranches(g, step.branches, past + [Entered(step.extracts)])
                  && known.Some? && BranchesRestFit(step.branches, depth, known.value))
            && (r.Some? ==>
                  && ScopeFits(r.value.scope, Known(past) + Declares(step), HasWaited(past) || Waits(step))
                  && r.value.ids == known.value + BranchIds(step.branches))
    decreases step, 1
  {
    hide ScopeFits, Known, HasWaited, CheckBranches, Merge, Declare, ExtractsFit, BranchesFit, FitBranches, BranchesRestFit,
         HeadsFit, Consistent, ScopesFit, BranchesDeclare, BranchesWait, Named, BranchIds, CheckNodeId;
    var known, inside := Known(past), past + [Entered(step.extracts)];
    ExtractsChecked(g, step.extracts, s, past);
    var declared, ids' := Declare(g, step.extracts, map[], s.possible), CheckNodeId(step.nodeId, ids);
    if ids'.Some? && step.nodeId.Some? && ExtractsFit(g, step.extracts, past) {
      var inner := Scope(s.definite + declared.value, s.possible + declared.value, s.hasWait);
      HeadsAreBranches(g, step.branches, known + Named(step.extracts));
      BranchesChecked(g, step.branches, 0, |step.branches|, depth, inner, ids'.value, inside);
      var r := CheckBranches(g, step.branches, 0, |step.branches|, depth, inner, ids'.value);
      if r.Some? && 2 <= |step.branches| {
        ConditionMerges(r.value.0, step.branches, Known(inside), HasWaited(inside));
        assert Known(inside) + BranchesDeclare(step.branches) == known + Declares(step);
      }
    }
  }

  /** The extractions of a condition, and the scope in which its branches are checked. */
  lemma ExtractsChecked(g: Grammar, extracts: seq<Extraction>, s: Scope, past: seq<Prior>)
    requires ScopeFits(s, Known(past), HasWaited(past))
    ensures var declared, inside := Declare(g, extracts, map[], s.possible), past + [Entered(extracts)];
            && (|extracts| <= 10 && (extracts != [] ==> s.hasWait) && declared.Some? <==> ExtractsFit(g, extracts, past))
            && (declared.Some? ==>
                  ScopeFits(Scope(s.definite + declared.value, s.possible + declared.value, s.hasWait),
                            Known(inside), HasWaited(inside)))
            && Known(inside) == Known(past) + Named(extracts) && (HasWaited(inside) <==> HasWaited(past))
  {
    hide Extractable, Known, HasWaited, Named, Declare;
    assert MapFits(map[], {});
    DeclareChecked(g, extracts, map[], {}, s.possible, Known(past));
    KnownAfter(past, Entered(extracts));
    assert {} + Named(extracts) == Named(extracts);
    assert forall n :: !IsKnown({}, n);
    var declared := Declare(g, extracts, map[], s.possible);
    if declared.Some? {
      forall n | IsKnown(Named(extracts), n)
        ensures !IsKnown(Known(past), n)
      {
        NamedIs(extracts, n);
      }
      DisjointFits(s.possible, Known(past), declared.value, Named(extracts));
    }
  }

  /** Kind and rules of a branch. */
  predicate HeadFits(g: Grammar, branch: Branch, kind: BranchKind, known: Names) {
    && branch.kind == kind
    && (if kind.Else? then branch.rules == []
        else 1 <= |branch.rules| <= 10 && forall j :: 0 <= j < |branch.rules| ==> RuleFits(g, branch.rules[j], known))
  }

  predicate HeadsFit(g: Grammar, branches: seq<Branch>, index: nat, count: nat, known: Names) {
    forall k :: 0 <= k < |branches| ==> HeadFits(g, branches[k], ExpectedKind(index + k, count), known)
  }

  lemma HeadsAreBranches(g: Grammar, branches: seq<Branch>, known: Names)
    ensures BranchesFit(g, branches, known) <==> 2 <= |branches| <= 20 && HeadsFit(g, branches, 0, |branches|, known)
  {
    hide RuleFits;
  }

  lemma HeadChecked(g: Grammar, branch: Branch, kind: BranchKind, m: Types, known: Names)
    requires MapFits(m, known)
    ensures branch.kind == kind && BranchRulesOk(g, branch, m) <==> HeadFits(g, branch, kind, known)
  {
    hide RuleOk, RuleFits, MapFits;
    forall j | 0 <= j < |branch.rules|
      ensures RuleOk(g, branch.rules[j], m) <==> RuleFits(g, branch.rules[j], known)
    {
      RuleChecked(g, branch.rules[j], m, known);
    }
  }

  lemma HeadsFirst(g: Grammar, branches: seq<Branch>, index: nat, count: nat, known: Names)
    requires branches != []
    ensures HeadsFit(g, branches, index, count, known)
            <==> HeadFits(g, branches[0], ExpectedKind(index, count), known) && HeadsFit(g, branches[1..], index + 1, count, known)
  {
    hide HeadFits;
    assert forall k :: 1 <= k < |branches| ==> branches[k] == branches[1..][k - 1];
    if HeadsFit(g, branches, index, count, known) {
      forall k | 0 <= k < |branches[1..]|
        ensures HeadFits(g, branches[1..][k], ExpectedKind(index + 1 + k, count), known)
      {
        assert HeadFits(g, branches[k + 1], ExpectedKind(index + (k + 1), count), known);
      }
    }
    if HeadFits(g, branches[0], ExpectedKind(index, count), known) && HeadsFit(g, branches[1..], index + 1, count, known) {
      forall k | 0 <= k < |branches|
        ensures HeadFits(g, branches[k], ExpectedKind(index + k, count), known)
      {
        if k > 0 {
          assert HeadFits(g, branches[1..][k - 1], ExpectedKind(index + 1 + (k - 1), count), known);
        }
      }
    }
  }

  lemma {:induction false} BranchesChecked(g: Grammar, branches: seq<Branch>, index: nat, count: nat, depth: nat, s: Scope,
                                           ids: set<string>, past: seq<Prior>)
    requires depth <= 3 && ScopeFits(s, Known(past), HasWaited(past))
    ensures var r := CheckBranches(g, branches, index, count, depth, s, ids);
            && (r.Some? <==>
                  && FitBranches(g, branches, past) && HeadsFit(g, branches, index, count, Known(past))
                  && BranchesRestFit(branches, depth, ids))
            && (r.Some? ==> ScopesFit(r.value.0, branches, Known(past), HasWaited(past)) && r.value.1 == ids + BranchIds(branches))
    decreases branches, 0
  {
    hide ScopeFits, Known, HasWaited, CheckSteps, Fit, BranchesRestFit, HeadsFit, HeadFits, BranchRulesOk, RestFits,
         StepsDeclare, StepsWait, Ids, BranchIds;
    if branches == [] {
      NoBranches(g, index, count, depth, Known(past), ids);
      assert ids + {} == ids;
    } else {
      BranchesRestFirst(branches, depth, ids);
      HeadsFirst(g, branches, index, count, Known(past));
      ScopePossible(s, Known(past), HasWaited(past));
      HeadChecked(g, branches[0], ExpectedKind(index, count), s.possible, Known(past));
      StepsChecked(g, branches[0].steps, depth, s, ids, past);
      var c := CheckSteps(g, branches[0].steps, depth, s, ids);
      if c.Some? {
        BranchesChecked(g, branches[1..], index + 1, count, depth, s, c.value.ids, past);
        assert c.value.ids + BranchIds(branches[1..]) == ids + BranchIds(branches);
      }
    }
  }

  lemma ScopePossible(s: Scope, known: Names, waited: bool)
    requires ScopeFits(s, known, waited)
    ensures MapFits(s.possible, known)
  {
  }

  lemma NoBranches(g: Grammar, index: nat, count: nat, depth: nat, known: Names, ids: set<string>)
    requires depth <= 3
    ensures HeadsFit(g, [], index, count, known) && BranchesRestFit([], depth, ids) && BranchIds([]) == {}
  {
  }

  // ----- legacy conditions -----

  lemma {:induction false} LegacyChecked(g: Grammar, step: Step, depth: nat, s: Scope, ids: set<string>, past: seq<Prior>)
    requires step.Condition? && !step.version2 && depth <= 3 && ScopeFits(s, Known(past), HasWaited(past))
    ensures var r, known := CheckLegacy(g, step, depth, s, ids), CheckNodeId(step.nodeId, ids);
            && (r.Some? <==>
                  && LegacyFits(step) && FitBranches(g, step.branches, [LegacyStart])
                  && known.Some? && BranchesRestFit(step.branches, depth, known.value))
            && (r.Some? ==>
                  && ScopeFits(r.value.scope, Known(past) + Declares(step), HasWaited(past) || Waits(step))
                  && r.value.ids == known.value + BranchIds(step.branches))
    decreases step, 1
  {
    hide ScopeFits, Known, HasWaited, CheckLegacyBranches, FitBranches, BranchesRestFit, BranchIds, CheckNodeId;
    var ids' := CheckNodeId(step.nodeId, ids);
    assert Known(past) + {} == Known(past);
    if ids'.Some? {
      LegacyBranchesChecked(g, step.branches, depth, ids'.value);
    }
  }

  predicate LegacyHeads(branches: seq<Branch>) {
    forall k :: 0 <= k < |branches| && !branches[k].kind.Else? ==> 1 <= |branches[k].rules| <= 10
  }

  lemma LegacyHeadsFirst(branches: seq<Branch>)
    requires branches != []
    ensures LegacyHeads(branches)
            <==> (branches[0].kind.Else? || 1 <= |branches[0].rules| <= 10) && LegacyHeads(branches[1..])
  {
    assert forall k :: 1 <= k < |branches| ==> branches[k] == branches[1..][k - 1];
    assert forall k :: 0 <= k < |branches[1..]| ==> branches[1..][k] == branches[k + 1];
  }

  lemma {:induction false} LegacyBranchesChecked(g: Grammar, branches: seq<Branch>, depth: nat, ids: set<string>)
    requires depth <= 3
    ensures var r := CheckLegacyBranches(g, branches, depth, ids);
            && (r.Some? <==> FitBranches(g, branches, [LegacyStart]) && LegacyHeads(branches) && BranchesRestFit(branches, depth, ids))
            && (r.Some? ==> r.value == ids + BranchIds(branches))
    decreases branches, 0
  {
    hide CheckSteps, Fit, BranchesRestFit, LegacyHeads, RestFits, Ids, BranchIds;
    if branches == [] {
      NoBranches(g, 0, 0, depth, {}, ids);
      assert ids + {} == ids && LegacyHeads([]) by { NoHeads(); }
    } else {
      var s := Scope(map[], map[], true);
      BranchesRestFirst(branches, depth, ids);
      LegacyHeadsFirst(branches);
      LegacyScope(s);
      StepsChecked(g, branches[0].steps, depth, s, ids, [LegacyStart]);
      var c := CheckSteps(g, branches[0].steps, depth, s, ids);
      if c.Some? {
        LegacyBranchesChecked(g, branches[1..], depth, c.value.ids);
        assert c.value.ids + BranchIds(branches[1..]) == ids + BranchIds(branches);
      }
    }
  }

  lemma NoHeads()
    ensures LegacyHeads([])
  {
  }

  lemma LegacyScope(s: Scope)
    requires s == Scope(map[], map[], true)
    ensures ScopeFits(s, Known([LegacyStart]), HasWaited([LegacyStart]))
  {
    assert [LegacyStart][..0] == [];
  }

  // ----- data sources -----

  function KindOfSource(kind: SourceKind): Kind { if kind.HttpKind? then Request else Reception }

  /** A step of this id and kind is among those passed. */
  predicate Supplied(past: seq<Step>, id: string, kind: Kind) {
    past != [] && ((KindOf(past[0]) == Some(kind) && past[0].nodeId == Some(id)) || Supplied(past[1..], id, kind))
  }

  /** The sources of the checker are those of the steps passed. */
  ghost predicate SourcesFit(s: Sources, past: seq<Step>) {
    && (forall id, kind :: Supplied(past, id, KindOfSource(kind)) && id != "" <==> id in s.nodes && s.nodes[id] == kind)
    && (forall kind :: kind in s.kinds <==> SomeExecutes(past, KindOfSource(kind)))
  }

  lemma {:induction false} SuppliedConcat(a: seq<Step>, b: seq<Step>, id: string, kind: Kind)
    ensures Supplied(a + b, id, kind) <==> Supplied(a, id, kind) || Supplied(b, id, kind)
    ensures SomeExecutes(a + b, kind) <==> SomeExecutes(a, kind) || SomeExecutes(b, kind)
    decreases a
  {
    hide Executes, KindOf;
    if a == [] {
      assert a + b == b;
    } else {
      assert (a + b)[0] == a[0] && (a + b)[1..] == a[1..] + b;
      SuppliedConcat(a[1..], b, id, kind);
    }
  }

  lemma {:induction false} SuppliedIs(past: seq<Step>, id: string, kind: Kind)
    ensures Supplied(past, id, kind) <==> exists k :: 0 <= k < |past| && KindOf(past[k]) == Some(kind) && past[k].nodeId == Some(id)
    ensures SomeExecutes(past, kind) <==> exists k :: 0 <= k < |past| && Executes(past[k], kind)
    decreases past
  {
    hide Executes, KindOf;
    if past != [] {
      SuppliedIs(past[1..], id, kind);
      assert forall k :: 1 <= k < |past| ==> past[k] == past[1..][k - 1];
      assert forall k :: 0 <= k < |past[1..]| ==> past[1..][k] == past[k + 1];
    }
  }

  lemma {:induction false} SuppliedHasId(steps: seq<Step>, id: string, kind: Kind)
    requires Supplied(steps, id, kind)
    ensures id in Ids(steps)
    decreases steps
  {
    if !(KindOf(steps[0]) == Some(kind) && steps[0].nodeId == Some(id)) {
      SuppliedHasId(steps[1..], id, kind);
    }
  }

  lemma SourceChecked(step: Step, s: Sources, past: seq<Step>)
    requires step.Extract? && SourcesFit(s, past)
    ensures SourceAvailable(s, step) <==> SourcePrecedes(step, past)
  {
    var kind := if step.source.WaitText? then WaitKind else HttpKind;
    SuppliedIs(past, step.sourceNodeId, KindOfSource(kind));
    assert kind == SourceOf(step.source);
  }

  /** Every condition has at least two branches. */
  predicate Branching(steps: seq<Step>)
    decreases steps, 0
  {
    steps == [] || (BranchingStep(steps[0]) && Branching(steps[1..]))
  }

  predicate BranchingStep(step: Step)
    decreases step, 1
  {
    step.Condition? ==> |step.branches| >= 2 && BranchingBranches(step.branches)
  }

  predicate BranchingBranches(branches: seq<Branch>)
    decreases branches, 0
  {
    branches == [] || (Branching(branches[0].steps) && BranchingBranches(branches[1..]))
  }

  lemma {:induction false} FitBranchesOut(g: Grammar, steps: seq<Step>, past: seq<Prior>)
    requires Fit(g, steps, past)
    ensures Branching(steps)
    decreases steps, 0
  {
    hide StepFits, ConditionFits, Known;
    if steps != [] {
      if steps[0].Condition? {
        var inside := if steps[0].version2 then past + [Entered(steps[0].extracts)] else [LegacyStart];
        TwoBranches(g, steps[0], past);
        AllFitBranchesOut(g, steps[0].branches, inside);
      }
      FitBranchesOut(g, steps[1..], past + [Passed(steps[0])]);
    }
  }

  lemma TwoBranches(g: Grammar, step: Step, past: seq<Prior>)
    requires step.Condition? && FitsHere(g, step, past)
    ensures |step.branches| >= 2
  {
  }

  lemma {:induction false} AllFitBranchesOut(g: Grammar, branches: seq<Branch>, past: seq<Prior>)
    requires FitBranches(g, branches, past)
    ensures BranchingBranches(branches)
    decreases branches, 0
  {
    if branches != [] {
      FitBranchesOut(g, branches[0].steps, past);
      AllFitBranchesOut(g, branches[1..], past);
    }
  }

  /** No id of these steps is that of a step passed. */
  ghost predicate NewIds(ids: set<string>, past: seq<Step>) {
    forall id, kind :: Supplied(past, id, kind) ==> id !in ids
  }

  lemma PassOne(step: Step, s: Sources, past: seq<Step>)
    requires !step.Condition? && SourcesFit(s, past) && NewIds(StepIds(step), past) && "" !in StepIds(step)
    requires CheckStepSources(step, s).Some?
    ensures SourcesFit(CheckStepSources(step, s).value, past + [step])
  {
    var r := CheckStepSources(step, s).value;
    forall id, kind
      ensures Supplied(past + [step], id, KindOfSource(kind)) && id != "" <==> id in r.nodes && r.nodes[id] == kind
    {
      SuppliedConcat(past, [step], id, KindOfSource(kind));
      OneSupplied(step, id, KindOfSource(kind));
      assert step.nodeId == Some(id) ==> id in StepIds(step) && id !in s.nodes by {
        if id in s.nodes { assert Supplied(past, id, KindOfSource(s.nodes[id])); }
      }
    }
    forall kind
      ensures kind in r.kinds <==> SomeExecutes(past + [step], KindOfSource(kind))
    {
      SuppliedConcat(past, [step], "", KindOfSource(kind));
      OneSupplied(step, "", KindOfSource(kind));
    }
  }

  lemma OneSupplied(step: Step, id: string, kind: Kind)
    ensures Supplied([step], id, kind) <==> KindOf(step) == Some(kind) && step.nodeId == Some(id)
    ensures SomeExecutes([step], kind) <==> Executes(step, kind)
  {
    assert [step][1..] == [];
  }

  lemma {:induction false} SourcesChecked(steps: seq<Step>, s: Sources, past: seq<Step>)
    requires SourcesFit(s, past) && Branching(steps)
    requires Unique(steps) && "" !in Ids(steps) && NewIds(Ids(steps), past)
    ensures var r := CheckSources(steps, s);
            && (r.Some? <==> Sourced(steps, past))
            && (r.Some? ==> SourcesFit(r.value, past + steps))
    decreases steps, 0
  {
    hide SourcesFit, NewIds, CheckStepSources, SourcedHere, BranchingStep, UniqueStep;
    if steps == [] {
      assert past + [] == past;
    } else {
      FewerIds(StepIds(steps[0]), Ids(steps), past);
      StepSourcesChecked(steps[0], s, past);
      var r := CheckStepSources(steps[0], s);
      if r.Some? {
        IdsPassed(steps[0], Ids(steps[1..]), Ids(steps), past);
        SourcesChecked(steps[1..], r.value, past + [steps[0]]);
        assert (past + [steps[0]]) + steps[1..] == past + steps;
      }
    }
  }

  lemma FewerIds(ids: set<string>, more: set<string>, past: seq<Step>)
    requires NewIds(more, past) && ids <= more
    ensures NewIds(ids, past)
  {
  }

  lemma IdsPassed(step: Step, ids: set<string>, more: set<string>, past: seq<Step>)
    requires NewIds(more, past) && ids <= more && StepIds(step) !! ids
    ensures NewIds(ids, past + [step])
  {
    forall id, kind | Supplied(past + [step], id, kind)
      ensures id !in ids
    {
      SuppliedConcat(past, [step], id, kind);
      OneSupplied(step, id, kind);
      assert step.nodeId == Some(id) ==> id in StepIds(step);
    }
  }

  lemma {:induction false} StepSourcesChecked(step: Step, s: Sources, past: seq<Step>)
    requires SourcesFit(s, past) && BranchingStep(step)
    requires UniqueStep(step) && "" !in StepIds(step) && NewIds(StepIds(step), past)
    ensures var r := CheckStepSources(step, s);
            && (r.Some? <==> SourcedHere(step, past))
            && (r.Some? ==> SourcesFit(r.value, past + [step]))
    decreases step, 1
  {
    hide SourcesFit, NewIds, SourceAvailable, SourcePrecedes, Common;
    if step.Condition? {
      FewerIds(BranchIds(step.branches), StepIds(step), past);
      BranchSourcesChecked(step.branches, s, past);
      var results := CheckBranchSources(step.branches, s);
      if results.Some? {
        CommonFits(step, results.value, s, past);
      }
    } else {
      if step.Extract? {
        SourceChecked(step, s, past);
      }
      if CheckStepSources(step, s).Some? {
        PassOne(step, s, past);
      }
    }
  }

  ghost predicate ResultsFit(results: seq<Sources>, branches: seq<Branch>, past: seq<Step>) {
    && |results| == |branches|
    && forall k :: 0 <= k < |results| ==> SourcesFit(results[k], past + branches[k].steps)
  }

  lemma {:induction false} BranchSourcesChecked(branches: seq<Branch>, s: Sources, past: seq<Step>)
    requires SourcesFit(s, past) && BranchingBranches(branches)
    requires UniqueBranches(branches) && "" !in BranchIds(branches) && NewIds(BranchIds(branches), past)
    ensures var r := CheckBranchSources(branches, s);
            && (r.Some? <==> SourcedBranches(branches, past))
            && (r.Some? ==> ResultsFit(r.value, branches, past))
    decreases branches, 0
  {
    hide SourcesFit, NewIds, CheckSources, Sourced, Branching, Unique;
    if branches != [] {
      FewerIds(Ids(branches[0].steps), BranchIds(branches), past);
      FewerIds(BranchIds(branches[1..]), BranchIds(branches), past);
      SourcesChecked(branches[0].steps, s, past);
      BranchSourcesChecked(branches[1..], s, past);
    }
  }

  lemma {:induction false} CommonIs(results: seq<Sources>, id: string, kind: SourceKind)
    requires results != []
    ensures id in CommonNodes(results) <==> forall k :: 0 <= k < |results| ==> id in results[k].nodes
    ensures kind in CommonKinds(results) <==> forall k :: 0 <= k < |results| ==> kind in results[k].kinds
    decreases results
  {
    if |results| > 1 {
      CommonIs(results[1..], id, kind);
      assert forall k :: 1 <= k < |results| ==> results[k] == results[1..][k - 1];
      assert forall k :: 0 <= k < |results[1..]| ==> results[1..][k] == results[k + 1];
    }
  }

  lemma {:induction false} AllExecuteIs(branches: seq<Branch>, kind: Kind)
    ensures AllExecute(branches, kind) <==> forall k :: 0 <= k < |branches| ==> SomeExecutes(branches[k].steps, kind)
    decreases branches
  {
    hide SomeExecutes;
    if branches != [] {
      AllExecuteIs(branches[1..], kind);
      assert forall k :: 1 <= k < |branches| ==> branches[k] == branches[1..][k - 1];
      assert forall k :: 0 <= k < |branches[1..]| ==> branches[1..][k] == branches[k + 1];
    }
  }

  /** A source known before is known after any branch. */
  lemma KnownStays(r: Sources, steps: seq<Step>, s: Sources, past: seq<Step>, id: string)
    requires SourcesFit(r, past + steps) && SourcesFit(s, past) && id in s.nodes
    ensures id in r.nodes && r.nodes[id] == s.nodes[id]
  {
    SuppliedConcat(past, steps, id, KindOfSource(s.nodes[id]));
  }

  /** Any other one has the id of a step of the branch. */
  lemma OtherIsOwn(r: Sources, steps: seq<Step>, s: Sources, past: seq<Step>, id: string)
    requires SourcesFit(r, past + steps) && SourcesFit(s, past) && id in r.nodes && id !in s.nodes
    ensures id in Ids(steps)
  {
    var kind := KindOfSource(r.nodes[id]);
    SuppliedConcat(past, steps, id, kind);
    SuppliedHasId(steps, id, kind);
  }

  lemma ResultHas(results: seq<Sources>, branches: seq<Branch>, s: Sources, past: seq<Step>, k: nat, id: string)
    requires ResultsFit(results, branches, past) && SourcesFit(s, past) && k < |results|
    ensures id in s.nodes ==> id in results[k].nodes && results[k].nodes[id] == s.nodes[id]
    ensures id in results[k].nodes && id !in s.nodes ==> id in Ids(branches[k].steps)
  {
    hide SourcesFit, Ids;
    if id in s.nodes {
      KnownStays(results[k], branches[k].steps, s, past, id);
    } else if id in results[k].nodes {
      OtherIsOwn(results[k], branches[k].steps, s, past, id);
    }
  }

  /** With two branches and distinct ids, the sources common to the branches are those known before. */
  lemma CommonFits(step: Step, results: seq<Sources>, s: Sources, past: seq<Step>)
    requires step.Condition? && |step.branches| >= 2 && UniqueBranches(step.branches)
    requires SourcesFit(s, past) && ResultsFit(results, step.branches, past)
    ensures results != [] && SourcesFit(Common(results), past + [step])
  {
    hide UniqueBranches, BranchIds, ResultsFit, CommonNodes, CommonKinds, Ids;
    var branches := step.branches;
    SameLength(results, branches, past);
    var r := Common(results);
    forall id
      ensures id in r.nodes <==> id in s.nodes
      ensures id in s.nodes ==> r.nodes[id] == s.nodes[id]
    {
      CommonIs(results, id, HttpKind);
      forall k | 0 <= k < |results|
        ensures id in s.nodes ==> id in results[k].nodes && results[k].nodes[id] == s.nodes[id]
      {
        ResultHas(results, branches, s, past, k, id);
      }
      ResultHas(results, branches, s, past, 0, id);
      ResultHas(results, branches, s, past, 1, id);
      BranchesApart(branches);
    }
    forall id, kind
      ensures Supplied(past + [step], id, kind) <==> Supplied(past, id, kind)
    {
      SuppliedConcat(past, [step], id, kind);
      OneSupplied(step, id, kind);
    }
    forall kind
      ensures kind in r.kinds <==> SomeExecutes(past + [step], KindOfSource(kind))
    {
      CommonKindsFit(step, results, s, past, kind);
    }
  }

  lemma SameLength(results: seq<Sources>, branches: seq<Branch>, past: seq<Step>)
    requires ResultsFit(results, branches, past)
    ensures |results| == |branches|
  {
  }

  lemma BranchesApart(branches: seq<Branch>)
    requires UniqueBranches(branches) && |branches| >= 2
    ensures Ids(branches[0].steps) !! Ids(branches[1].steps)
  {
    BranchesAreUnique(branches, 1);
  }

  lemma CommonKindsFit(step: Step, results: seq<Sources>, s: Sources, past: seq<Step>, kind: SourceKind)
    requires step.Condition? && |step.branches| >= 1 && SourcesFit(s, past) && ResultsFit(results, step.branches, past)
    ensures kind in CommonKinds(results) <==> SomeExecutes(past + [step], KindOfSource(kind))
  {
    hide SomeExecutes, AllExecute, CommonNodes, CommonKinds;
    var k := KindOfSource(kind);
    CommonIs(results, "", kind);
    AllExecuteIs(step.branches, k);
    SuppliedConcat(past, [step], "", k);
    OneSupplied(step, "", k);
    ConditionExecutes(step, k);
    forall i | 0 <= i < |results|
      ensures kind in results[i].kinds <==> SomeExecutes(past, k) || SomeExecutes(step.branches[i].steps, k)
    {
      SuppliedConcat(past, step.branches[i].steps, "", k);
    }
  }

  lemma ConditionExecutes(step: Step, kind: Kind)
    requires step.Condition?
    ensures Executes(step, kind) <==> AllExecute(step.branches, kind)
  {
  }

  // ----- node ids -----

  /** An id occurs exactly if it is one of the ids, and ids are distinct exactly if each occurs once. */
  lemma {:induction false} IdsOccur(steps: seq<Step>)
    ensures Occur(Occurrences(steps), Ids(steps)) && (Unique(steps) <==> Once(Occurrences(steps)))
    decreases steps, 0
  {
    hide StepOccurrences, StepIds, UniqueStep, Occur, Once;
    if steps == [] {
      NothingOccurs();
    } else {
      StepIdsOccur(steps[0]);
      IdsOccur(steps[1..]);
      OccurTogether(StepOccurrences(steps[0]), Occurrences(steps[1..]), StepIds(steps[0]), Ids(steps[1..]));
    }
  }

  ghost predicate Occur(a: multiset<string>, x: set<string>) { forall id :: id in x <==> id in a }

  ghost predicate Once(a: multiset<string>) { forall id :: a[id] <= 1 }

  lemma NothingOccurs()
    ensures Occur(multiset{}, {}) && Once(multiset{})
  {
  }

  /** Two collections are distinct together if each is and they have nothing in common. */
  lemma OccurTogether(a: multiset<string>, b: multiset<string>, x: set<string>, y: set<string>)
    requires Occur(a, x) && Occur(b, y)
    ensures Once(a + b) <==> Once(a) && Once(b) && x !! y
    ensures Occur(a + b, x + y)
  {
    if Once(a + b) {
      forall id
        ensures a[id] <= 1 && b[id] <= 1 && !(id in x && id in y)
      {
        assert (a + b)[id] == a[id] + b[id];
      }
    }
  }

  lemma OwnIdOccurs(id: Option<string>)
    ensures var own: multiset<string> := if id.Some? then multiset{id.value} else multiset{};
            Occur(own, IdSet(id)) && Once(own)
  {
  }

  lemma {:induction false} StepIdsOccur(step: Step)
    ensures Occur(StepOccurrences(step), StepIds(step)) && (UniqueStep(step) <==> Once(StepOccurrences(step)))
    decreases step, 1
  {
    hide BranchOccurrences, BranchIds, UniqueBranches, Occur, Once, IdSet;
    var own: multiset<string> := if step.nodeId.Some? then multiset{step.nodeId.value} else multiset{};
    OwnIdOccurs(step.nodeId);
    if step.Condition? {
      BranchIdsOccur(step.branches);
      OccurTogether(own, BranchOccurrences(step.branches), IdSet(step.nodeId), BranchIds(step.branches));
    } else {
      assert own + multiset{} == own && IdSet(step.nodeId) + {} == IdSet(step.nodeId);
    }
  }

  lemma {:induction false} BranchIdsOccur(branches: seq<Branch>)
    ensures Occur(BranchOccurrences(branches), BranchIds(branches))
    ensures UniqueBranches(branches) <==> Once(BranchOccurrences(branches))
    decreases branches, 0
  {
    hide Occurrences, Ids, Unique, Occur, Once;
    if branches == [] {
      NothingOccurs();
    } else {
      IdsOccur(branches[0].steps);
      BranchIdsOccur(branches[1..]);
      OccurTogether(Occurrences(branches[0].steps), BranchOccurrences(branches[1..]),
                    Ids(branches[0].steps), BranchIds(branches[1..]));
    }
  }

  // ----- acceptance -----

  /** A workflow is accepted if and only if it is well formed. */
  lemma AcceptedIsWellFormed(g: Grammar, steps: seq<Step>)
    ensures Accepts(g, steps) <==> WellFormedWorkflow(g, steps)
  {
    hide CheckSteps, CheckSources, Fit, Sourced, Unique, Occurrences, Ids, Depth;
    IdsOccur(steps);
    NothingKnown();
    StepsChecked(g, steps, 0, EMPTY_SCOPE, {}, []);
    OnceIsUnique(steps);
    if Fit(g, steps, []) && RestFits(steps, 0, {}) {
      FitBranchesOut(g, steps, []);
      SourcesChecked(steps, NO_SOURCES, []);
    }
  }

  lemma OnceIsUnique(steps: seq<Step>)
    ensures Depth(steps) <= 3 && (forall id :: id in Occurrences(steps) ==> 1 <= |id| <= 100 && Occurrences(steps)[id] == 1)
            <==> RestFits(steps, 0, {})
  {
    hide Unique, Occurrences, Ids, Depth;
    IdsOccur(steps);
  }

  lemma NothingKnown()
    ensures ScopeFits(EMPTY_SCOPE, Known([]), HasWaited([])) && SourcesFit(NO_SOURCES, [])
    ensures forall ids :: NewIds(ids, [])
  {
  }
}
