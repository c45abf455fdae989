/**
 * Provenance: an extraction that names a data source reads what the step of that name received in
 * this run, and one that names none reads what was received last. Storage keys are node ids or
 * paths, so this needs that no step without an id has a path that reads like the id of another.
 */
module Provenance {
  import opened Wrappers
  import opened Workflow
  import opened Checker
  import opened Interpreter
  import opened SourceSoundness

  // ----- the history of a run -----

  predicate By(node: Node, id: string) { id == "" || node.id == Some(id) }

  /** The response received last, by the step with this id if one is given. */
  function FetchedBy(notes: seq<Note>, id: string): Option<Response>
    decreases |notes|
  {
    if notes == [] then None
    else
      var last := notes[|notes| - 1];
      if last.Fetched? && By(last.node, id) then Some(last.response) else FetchedBy(notes[..|notes| - 1], id)
  }

  /** The text and metadata received last, by the step with this id if one is given. */
  function HeardBy(notes: seq<Note>, id: string): Option<Input>
    decreases |notes|
  {
    if notes == [] then None
    else
      var last := notes[|notes| - 1];
      if last.Heard? && By(last.node, id) then Some(Input(Some(last.text), last.metadata))
      else HeardBy(notes[..|notes| - 1], id)
  }

  function TextOfInput(input: Option<Input>): Option<string> { if input.Some? then input.value.text else None }

  /** A reading takes what the history up to it says; of the last wait, clicks may have changed the metadata. */
  predicate ReadsTruly(notes: seq<Note>, k: nat)
    requires k < |notes|
  {
    match notes[k]
    case ReadResponse(id, response) => FetchedBy(notes[..k], id) == Some(response)
    case ReadWait(id, input) =>
      if id == "" then TextOfInput(HeardBy(notes[..k], "")) == input.text else HeardBy(notes[..k], id) == Some(input)
    case _ => true
  }

  function ReceiverOf(n: Note): Option<string> {
    match n
    case Fetched(node, _) => node.id
    case Heard(node, _, _) => node.id
    case _ => None
  }

  /** No step of one id has received twice, and none of `ids` has received yet. */
  ghost predicate Single(notes: seq<Note>, ids: set<string>) {
    && (forall j, k :: 0 <= j < k < |notes| && ReceiverOf(notes[j]).Some? ==> ReceiverOf(notes[j]) != ReceiverOf(notes[k]))
    && (forall k :: 0 <= k < |notes| && ReceiverOf(notes[k]).Some? ==> ReceiverOf(notes[k]).value !in ids)
  }

  /** No wait or request without an id, at any depth, is stored under one of these ids. */
  predicate KeysApart(w: World, steps: seq<Step>, prefix: seq<nat>, i: nat, ids: set<string>)
    decreases steps, 0
  {
    steps == [] || (StepKeysApart(w, steps[0], prefix + [i], ids) && KeysApart(w, steps[1..], prefix, i + 1, ids))
  }

  predicate StepKeysApart(w: World, step: Step, path: seq<nat>, ids: set<string>)
    decreases step, 1
  {
    match step
    case Condition(_, _, _, _, branches) => BranchKeysApart(w, branches, path, 0, ids)
    case Wait(_, _, _) | Http(_, _, _, _, _) => NodeAt(step, path, false).id == None ==> w.pathText(path) !in ids
    case _ => true
  }

  predicate BranchKeysApart(w: World, branches: seq<Branch>, path: seq<nat>, b: nat, ids: set<string>)
    decreases branches, 0
  {
    branches == []
    || (KeysApart(w, branches[0].steps, path + [b], 0, ids) && BranchKeysApart(w, branches[1..], path, b + 1, ids))
  }

  lemma ConditionKeysApart(w: World, step: Step, path: seq<nat>, ids: set<string>)
    requires step.Condition? && StepKeysApart(w, step, path, ids)
    ensures BranchKeysApart(w, step.branches, path, 0, ids)
  {
  }

  lemma {:induction false} KeysApartInBranch(w: World, branches: seq<Branch>, path: seq<nat>, b: nat, ids: set<string>, k: nat)
    requires BranchKeysApart(w, branches, path, b, ids) && b <= k < b + |branches|
    ensures KeysApart(w, branches[k - b].steps, path + [k], 0, ids)
    decreases branches
  {
    if k > b {
      KeysApartInBranch(w, branches[1..], path, b + 1, ids, k);
    }
  }

  /** The context stores exactly what the history says, under the last and under every node id. */
  ghost predicate Traced(st: State, ids: set<string>) {
    && st.http == FetchedBy(st.notes, "")
    && st.lastText == TextOfInput(HeardBy(st.notes, ""))
    && (forall id :: id in ids ==> FetchedBy(st.notes, id) == if id in st.responses then Some(st.responses[id]) else None)
    && (forall id :: id in ids ==>
          HeardBy(st.notes, id) == if id in st.waits && id in st.waitMetadata
                                   then Some(Input(Some(st.waits[id]), st.waitMetadata[id])) else None)
    && (forall id :: id in ids ==> (id in st.waits <==> id in st.waitMetadata))
    && (forall k :: 0 <= k < |st.notes| ==> ReadsTruly(st.notes, k))
  }

  // ----- what leaves the history alone -----

  predicate IsPlain(n: Note) { n.Extracted? || n.Evaluated? }

  /** Only outcomes of extractions and rules have been added. */
  ghost predicate OnlyPlain(notes: seq<Note>, more: seq<Note>) {
    notes <= more && forall k :: |notes| <= k < |more| ==> IsPlain(more[k])
  }

  lemma {:induction false} PlainKeepsHistory(notes: seq<Note>, more: seq<Note>, id: string)
    requires OnlyPlain(notes, more)
    ensures FetchedBy(more, id) == FetchedBy(notes, id) && HeardBy(more, id) == HeardBy(notes, id)
    decreases |more|
  {
    if |more| > |notes| {
      PlainKeepsHistory(notes, more[..|more| - 1], id);
    } else {
      assert more == notes;
    }
  }

  lemma PrefixReads(notes: seq<Note>, more: seq<Note>, k: nat)
    requires notes <= more && k < |notes| && ReadsTruly(notes, k)
    ensures ReadsTruly(more, k)
  {
    assert more[..k] == notes[..k];
  }

  lemma PlainKeepsTraced(st: State, st': State, ids: set<string>)
    requires Traced(st, ids) && OnlyPlain(st.notes, st'.notes)
    requires st'.http == st.http && st'.lastText == st.lastText && st'.responses == st.responses
    requires st'.waits == st.waits && st'.waitMetadata == st.waitMetadata
    ensures Traced(st', ids)
  {
    forall id
      ensures FetchedBy(st'.notes, id) == FetchedBy(st.notes, id) && HeardBy(st'.notes, id) == HeardBy(st.notes, id)
    {
      PlainKeepsHistory(st.notes, st'.notes, id);
    }
    forall k | 0 <= k < |st'.notes|
      ensures ReadsTruly(st'.notes, k)
    {
      if k < |st.notes| {
        PrefixReads(st.notes, st'.notes, k);
      } else {
        assert IsPlain(st'.notes[k]);
      }
    }
  }

  lemma PlainKeepsSingle(notes: seq<Note>, more: seq<Note>, ids: set<string>)
    requires Single(notes, ids) && OnlyPlain(notes, more)
    ensures Single(more, ids)
  {
    assert forall k :: 0 <= k < |more| ==> if k < |notes| then more[k] == notes[k] else ReceiverOf(more[k]) == None;
  }

  lemma {:induction false} ExtractionIsPlain(w: World, extracts: seq<Extraction>, strict: bool, input: Input, s: Scratch)
    ensures OnlyPlain(s.notes, ExtractAll(w, extracts, strict, input, s).1.notes)
    decreases extracts
  {
    if extracts != [] {
      var (r, b) := ExtractOne(w, extracts[0], input, s.budget);
      var notes := s.notes + [Extracted(r)];
      match r
      case Value(v) => ExtractionIsPlain(w, extracts[1..], strict, input, Scratch(s.vars[extracts[0].name := v], b, notes));
      case Raise(_) => ExtractionIsPlain(w, extracts[1..], strict, input, Scratch(s.vars - {extracts[0].name}, b, notes));
      case Crash(_) =>
    }
  }

  lemma {:induction false} EvaluationIsPlain(w: World, rules: seq<Rule>, all: bool, matched: bool, strict: bool, s: Scratch)
    ensures OnlyPlain(s.notes, EvaluateRules(w, rules, all, matched, strict, s).1.notes)
    decreases rules
  {
    if rules != [] {
      var (r, b) := EvaluateRule(w, rules[0], s.vars, s.budget);
      EvaluationIsPlain(w, rules[1..], all, all, strict, Scratch(s.vars, b, s.notes + [Evaluated(r)]));
    }
  }

  lemma {:induction false} SelectingIsPlain(w: World, branches: seq<Branch>, index: nat, strict: bool, s: Scratch)
    ensures OnlyPlain(s.notes, SelectFrom(w, branches, index, strict, s).1.notes)
    decreases branches
  {
    if branches != [] && !branches[0].kind.Else? {
      hide EvaluateRules;
      EvaluationIsPlain(w, branches[0].rules, branches[0].all, branches[0].all, strict, s);
      var (r, s') := EvaluateRules(w, branches[0].rules, branches[0].all, branches[0].all, strict, s);
      if r == Value(false) {
        SelectingIsPlain(w, branches[1..], index + 1, strict, s');
      }
    }
  }

  lemma SelectionIsPlain(w: World, step: Step, st: State)
    requires step.Condition?
    ensures OnlyPlain(st.notes, Selection(w, step, st).1.notes)
  {
    var input, s := Input(st.lastText, st.lastMetadata), ScratchOf(st);
    ExtractionIsPlain(w, step.extracts, step.strict, input, s);
    SelectingIsPlain(w, step.branches, 0, step.strict, ExtractAll(w, step.extracts, step.strict, input, s).1);
    hide ExtractAll, SelectFrom;
  }

  // ----- what the steps add -----

  /** Nothing is forgotten, and only steps with these ids have received. */
  ghost predicate Adds(notes: seq<Note>, more: seq<Note>, ids: set<string>) {
    && notes <= more
    && forall k :: |notes| <= k < |more| && ReceiverOf(more[k]).Some? ==> ReceiverOf(more[k]).value in ids
  }

  lemma LastNote(notes: seq<Note>, n: Note)
    ensures (notes + [n])[..|notes|] == notes && (notes + [n])[|notes|] == n
    ensures forall k :: 0 <= k < |notes| && ReadsTruly(notes, k) ==> ReadsTruly(notes + [n], k)
    ensures forall id :: FetchedBy(notes + [n], id)
                         == if n.Fetched? && By(n.node, id) then Some(n.response) else FetchedBy(notes, id)
    ensures forall id :: HeardBy(notes + [n], id)
                         == if n.Heard? && By(n.node, id) then Some(Input(Some(n.text), n.metadata)) else HeardBy(notes, id)
  {
    assert (notes + [n])[..|notes + [n]| - 1] == notes;
    forall k | 0 <= k < |notes| && ReadsTruly(notes, k)
      ensures ReadsTruly(notes + [n], k)
    {
      PrefixReads(notes, notes + [n], k);
    }
  }

  /** The key under which a step stores is its node id, or else none of these ids. */
  ghost predicate KeyFits(key: string, node: Node, ids: set<string>) {
    "" !in ids && forall id :: id in ids ==> (key == id <==> node.id == Some(id))
  }

  lemma KeysFit(w: World, step: Step, path: seq<nat>, top: bool, ids: set<string>)
    requires (step.Wait? || step.Http?) && "" !in ids && StepKeysApart(w, step, path, ids)
    ensures var node := NodeAt(step, path, top); KeyFits(StoreKey(w, node), node, ids)
  {
  }

  /** A receipt that is stored under the last and under its key keeps the context traced. */
  lemma ReceiptIsTraced(st: State, st': State, n: Note, key: string, ids: set<string>)
    requires Traced(st, ids) && st'.notes == st.notes + [n]
    requires (n.Fetched? || n.Heard?) && KeyFits(key, n.node, ids)
    requires n.Fetched? ==>
               && st'.http == Some(n.response) && st'.responses == st.responses[key := n.response]
               && st'.lastText == st.lastText && st'.waits == st.waits && st'.waitMetadata == st.waitMetadata
    requires n.Heard? ==>
               && st'.lastText == Some(n.text) && st'.waits == st.waits[key := n.text]
               && st'.waitMetadata == st.waitMetadata[key := n.metadata]
               && st'.http == st.http && st'.responses == st.responses
    ensures Traced(st', ids)
  {
    LastNote(st.notes, n);
    assert ReadsTruly(st'.notes, |st.notes|);
    hide FetchedBy, HeardBy, ReadsTruly;
  }

  /** A reading of a node id, or of the last data source, is true to the history. */
  lemma ReadingIsTraced(st: State, n: Note, ids: set<string>)
    requires Traced(st, ids) && (n.ReadResponse? || n.ReadWait?) && (n.id == "" || n.id in ids)
    requires n.ReadResponse? ==>
               if n.id == "" then st.http == Some(n.response) else n.id in st.responses && st.responses[n.id] == n.response
    requires n.ReadWait? ==>
               if n.id == "" then n.input.text == st.lastText
               else n.id in st.waits && n.id in st.waitMetadata && n.input == Input(Some(st.waits[n.id]), st.waitMetadata[n.id])
    ensures Traced(Noted(st, n), ids)
  {
    var st' := Noted(st, n);
    LastNote(st.notes, n);
    assert ReadsTruly(st'.notes, |st.notes|);
    hide FetchedBy, HeardBy, ReadsTruly;
  }

  lemma HttpExtractIsTraced(w: World, step: Step, st: State, ids: set<string>)
    requires step.Extract? && Traced(st, ids) && (step.sourceNodeId == "" || step.sourceNodeId in ids)
    ensures Traced(RunHttpExtract(w, step, st).1, ids)
  {
    if HttpInput(step, st).Ok? {
      var n := ReadResponse(step.sourceNodeId, HttpInput(step, st).value);
      ReadingIsTraced(st, n, ids);
      var st' := RunHttpExtract(w, step, st).1;
      assert st' == Noted(st, n).(vars := st'.vars);
      PlainKeepsTraced(Noted(st, n), st', ids);
    }
  }

  lemma WaitExtractIsTraced(w: World, step: Step, st: State, ids: set<string>)
    requires step.Extract? && Traced(st, ids) && (step.sourceNodeId == "" || step.sourceNodeId in ids)
    ensures Traced(RunWaitExtract(w, step, st).1, ids)
  {
    if WaitInput(step, st).Ok? {
      var n := ReadWait(step.sourceNodeId, WaitInput(step, st).value);
      ReadingIsTraced(st, n, ids);
      var e := step.extraction.(fromMetadata := step.extraction.mode.MetadataMode? || step.extraction.fromMetadata);
      ExtractionIsPlain(w, [e], true, n.input, ScratchOf(Noted(st, n)));
      hide ExtractAll, Traced;
      PlainKeepsTraced(Noted(st, n), RunWaitExtract(w, step, st).1, ids);
    }
  }

  /** The fields that provenance is about, left as they are. */
  predicate SameSources(st: State, st': State) {
    && st'.http == st.http && st'.responses == st.responses
    && st'.lastText == st.lastText && st'.waits == st.waits && st'.waitMetadata == st.waitMetadata
  }

  lemma WaitEffect(w: World, step: Step, node: Node, st: State)
    requires step.Wait?
    ensures var (o, st') := RunWait(w, step, node, st);
            if o.Done? then
              && st'.lastText.Some? && st'.notes == st.notes + [Heard(node, st'.lastText.value, st'.lastMetadata)]
              && st'.waits == st.waits[StoreKey(w, node) := st'.lastText.value]
              && st'.waitMetadata == st.waitMetadata[StoreKey(w, node) := st'.lastMetadata]
              && st'.http == st.http && st'.responses == st.responses
            else st'.notes == st.notes && SameSources(st, st')
  {
    hide StoreKey;
  }

  lemma HttpEffect(w: World, step: Step, node: Node, st: State)
    requires step.Http?
    ensures var (o, st') := RunHttp(w, step, node, st);
            if o.Done? then
              && st'.http.Some? && st'.notes == st.notes + [Fetched(node, st'.http.value)]
              && st'.responses == st.responses[StoreKey(w, node) := st'.http.value]
              && st'.lastText == st.lastText && st'.waits == st.waits && st'.waitMetadata == st.waitMetadata
            else st'.notes == st.notes && SameSources(st, st')
  {
    hide StoreKey;
  }

  lemma PlainStepIsTraced(w: World, step: Step, node: Node, st: State, s: Sources, ids: set<string>)
    requires !step.Condition? && CheckStepSources(step, s).Some? && s.nodes.Keys <= ids
    requires Traced(st, ids) && "" !in ids && (step.Wait? || step.Http? ==> KeyFits(StoreKey(w, node), node, ids))
    ensures Traced(RunPlain(w, step, node, st).1, ids)
  {
    hide Traced, KeyFits, StoreKey, RunWait, RunHttp, RunWaitExtract, RunHttpExtract;
    var (o, st') := RunPlain(w, step, node, st);
    match step
    case Wait(_, _, _) =>
      WaitEffect(w, step, node, st);
      if o.Done? {
        ReceiptIsTraced(st, st', Heard(node, st'.lastText.value, st'.lastMetadata), StoreKey(w, node), ids);
      } else {
        PlainKeepsTraced(st, st', ids);
      }
    case Http(_, _, _, _, _) =>
      HttpEffect(w, step, node, st);
      if o.Done? {
        ReceiptIsTraced(st, st', Fetched(node, st'.http.value), StoreKey(w, node), ids);
      } else {
        PlainKeepsTraced(st, st', ids);
      }
    case Extract(_, source, _, _, _) =>
      if source.WaitText? { WaitExtractIsTraced(w, step, st, ids); } else { HttpExtractIsTraced(w, step, st, ids); }
    case _ => PlainKeepsTraced(st, st', ids);
  }

  // ----- each step receives once -----

  /** No receipts have been added. */
  ghost predicate NoReceipt(notes: seq<Note>, more: seq<Note>) {
    notes <= more && forall k :: |notes| <= k < |more| ==> ReceiverOf(more[k]) == None
  }

  /** At most one receipt has been added, by the step with this id. */
  ghost predicate OneReceipt(notes: seq<Note>, more: seq<Note>, id: Option<string>) {
    NoReceipt(notes, more) || (|more| == |notes| + 1 && notes <= more && ReceiverOf(more[|notes|]) == id)
  }

  lemma ReadingReceivesNothing(notes: seq<Note>, n: Note, more: seq<Note>)
    requires ReceiverOf(n) == None && OnlyPlain(notes + [n], more)
    ensures NoReceipt(notes, more)
  {
    assert forall k :: |notes| <= k < |more| ==> more[k] == n || IsPlain(more[k]) by {
      assert more[|notes|] == (notes + [n])[|notes|];
    }
  }

  lemma WaitExtractReceivesNothing(w: World, step: Step, st: State)
    requires step.Extract?
    ensures NoReceipt(st.notes, RunWaitExtract(w, step, st).1.notes)
  {
    if WaitInput(step, st).Ok? {
      var e := step.extraction.(fromMetadata := step.extraction.mode.MetadataMode? || step.extraction.fromMetadata);
      var n := ReadWait(step.sourceNodeId, WaitInput(step, st).value);
      ExtractionIsPlain(w, [e], true, n.input, ScratchOf(Noted(st, n)));
      hide ExtractAll, OnlyPlain, NoReceipt, WaitInput;
      ReadingReceivesNothing(st.notes, n, RunWaitExtract(w, step, st).1.notes);
    }
  }

  lemma HttpExtractReceivesNothing(w: World, step: Step, st: State)
    requires step.Extract?
    ensures NoReceipt(st.notes, RunHttpExtract(w, step, st).1.notes)
  {
    hide HttpRaw, Convert, HttpInput;
  }

  lemma PlainStepReceivesOnce(w: World, step: Step, node: Node, st: State)
    requires !step.Condition?
    ensures OneReceipt(st.notes, RunPlain(w, step, node, st).1.notes, node.id)
  {
    hide RunSend, RunClick, RunWait, RunHttp, RunWaitExtract, RunHttpExtract;
    match step
    case Wait(_, _, _) => WaitEffect(w, step, node, st);
    case Http(_, _, _, _, _) => HttpEffect(w, step, node, st);
    case Extract(_, source, _, _, _) =>
      if source.WaitText? { WaitExtractReceivesNothing(w, step, st); } else { HttpExtractReceivesNothing(w, step, st); }
    case _ =>
  }

  lemma ReceiptsAreSingle(notes: seq<Note>, more: seq<Note>, id: Option<string>, ids: set<string>)
    requires OneReceipt(notes, more, id) && Single(notes, ids) && (id.Some? ==> id.value in ids)
    ensures Single(more, {}) && Adds(notes, more, ids)
  {
    if NoReceipt(notes, more) {
      assert forall k :: 0 <= k < |more| ==> if k < |notes| then more[k] == notes[k] else ReceiverOf(more[k]) == None;
    } else {
      assert forall k :: 0 <= k < |notes| ==> more[k] == notes[k];
    }
  }

  lemma SingleShrinks(notes: seq<Note>, ids: set<string>, fewer: set<string>)
    requires Single(notes, ids) && fewer <= ids
    ensures Single(notes, fewer)
  {
  }

  /** Once the steps with ids `done` have run, those with other ids still have not received. */
  lemma SingleMovesOn(notes: seq<Note>, more: seq<Note>, done: set<string>, rest: set<string>)
    requires Single(notes, done + rest) && Single(more, {}) && Adds(notes, more, done) && done !! rest
    ensures Single(more, rest)
  {
    forall k | 0 <= k < |more| && ReceiverOf(more[k]).Some?
      ensures ReceiverOf(more[k]).value !in rest
    {
      assert k < |notes| ==> more[k] == notes[k];
    }
  }

  lemma AddsTwice(a: seq<Note>, b: seq<Note>, c: seq<Note>, x: set<string>, y: set<string>)
    requires Adds(a, b, x) && Adds(b, c, y)
    ensures Adds(a, c, x + y)
  {
    assert forall k :: |a| <= k < |b| ==> c[k] == b[k];
  }

  // ----- runs -----

  /** The run so far: traced, and nothing received twice, nor yet by the steps to come. */
  ghost predicate Good(st: State, all: set<string>, ids: set<string>) { Traced(st, all) && Single(st.notes, ids) }

  ghost predicate GoodAfter(st: State, st': State, all: set<string>, ids: set<string>) {
    Good(st', all, {}) && Adds(st.notes, st'.notes, ids)
  }

  lemma {:induction false} StepsAreTraced(w: World, steps: seq<Step>, prefix: seq<nat>, i: nat, top: bool, st: State,
                                          s: Sources, all: set<string>)
    requires CheckSources(steps, s).Some? && Unique(steps) && s.nodes.Keys <= all && Ids(steps) <= all
    requires "" !in all && KeysApart(w, steps, prefix, i, all)
    requires Good(st, all, Ids(steps))
    ensures GoodAfter(st, RunSteps(w, steps, prefix, i, top, st).1, all, Ids(steps))
    decreases steps, 0
  {
    hide Traced, Single, Adds, StepKeysApart, CheckStepSources, UniqueStep;
    if steps == [] {
      SingleShrinks(st.notes, {}, {});
      AddsNothing(st.notes, {});
    } else {
      var here, later := StepIds(steps[0]), Ids(steps[1..]);
      SingleShrinks(st.notes, here + later, here);
      StepIsTraced(w, steps[0], prefix + [i], top, st, s, all);
      var (o, st') := RunStep(w, steps[0], prefix + [i], top, st);
      if o.Done? {
        var s' := CheckStepSources(steps[0], s).value;
        StepSourcesFrame(steps[0], s);
        SingleMovesOn(st.notes, st'.notes, here, later);
        StepsAreTraced(w, steps[1..], prefix, i + 1, top, st', s', all);
        AddsTwice(st.notes, st'.notes, RunSteps(w, steps[1..], prefix, i + 1, top, st').1.notes, here, later);
      } else {
        AddsMore(st.notes, st'.notes, here, here + later);
      }
    }
  }

  lemma AddsNothing(notes: seq<Note>, ids: set<string>)
    ensures Adds(notes, notes, ids)
  {
  }

  lemma AddsMore(notes: seq<Note>, more: seq<Note>, ids: set<string>, others: set<string>)
    requires Adds(notes, more, ids) && ids <= others
    ensures Adds(notes, more, others)
  {
  }

  lemma SameHistory(st: State, st': State, all: set<string>, ids: set<string>)
    requires Good(st, all, ids) && st' == st.(reports := st'.reports, tick := st'.tick)
    ensures Good(st', all, ids) && Adds(st.notes, st'.notes, {})
  {
    PlainKeepsTraced(st, st', all);
  }

  lemma {:induction false} StepIsTraced(w: World, step: Step, path: seq<nat>, top: bool, st: State, s: Sources, all: set<string>)
    requires CheckStepSources(step, s).Some? && UniqueStep(step) && s.nodes.Keys <= all && StepIds(step) <= all
    requires "" !in all && StepKeysApart(w, step, path, all)
    requires Good(st, all, StepIds(step))
    ensures GoodAfter(st, RunStep(w, step, path, top, st).1, all, StepIds(step))
    decreases step, 1
  {
    hide Traced, Single, Adds, StepKeysApart, CheckStepSources, UniqueStep, RunPlain, RunCondition;
    var node := NodeAt(step, path, top);
    SameHistory(st, Ticked(st), all, StepIds(step));
    if !WellFormed(w, step) || w.cancelled(st.tick) {
      SingleShrinks(st.notes, StepIds(step), {});
      AddsMore(st.notes, st.notes, {}, StepIds(step));
    } else {
      var started := Reported(Ticked(st), node, Running);
      SameHistory(st, started, all, StepIds(step));
      if step.Condition? {
        ConditionKeysApart(w, step, path, all);
        ConditionIsTraced(w, step, node, started, s, all);
        var st' := RunCondition(w, step, node, started).1;
        SameHistory(st', Reported(st', node, Failed), all, {});
      } else {
        if step.Wait? || step.Http? {
          KeysFit(w, step, path, top, all);
        }
        PlainStepIsTraced(w, step, node, started, s, all);
        PlainStepReceivesOnce(w, step, node, started);
        var st' := RunPlain(w, step, node, started).1;
        ReceiptsAreSingle(started.notes, st'.notes, node.id, StepIds(step));
        SameHistory(st', Reported(st', node, Failed), all, {});
        SameHistory(st', Reported(st', node, Success), all, {});
      }
    }
  }

  lemma {:induction false} ConditionIsTraced(w: World, step: Step, node: Node, st: State, s: Sources, all: set<string>)
    requires step.Condition? && CheckStepSources(step, s).Some? && UniqueStep(step)
    requires s.nodes.Keys <= all && StepIds(step) <= all && Good(st, all, StepIds(step))
    requires "" !in all && BranchKeysApart(w, step.branches, node.path, 0, all)
    ensures GoodAfter(st, RunCondition(w, step, node, st).1, all, StepIds(step))
    decreases step, 0
  {
    var (r, chosen) := Selection(w, step, st);
    SelectionIsPlain(w, step, st);
    PlainKeepsTraced(st, chosen, all);
    PlainKeepsSingle(st.notes, chosen.notes, StepIds(step));
    PlainAddsNothing(st.notes, chosen.notes);
    if r.Value? {
      var k := r.v;
      BranchSourcesFrame(step.branches, s, k);
      BranchesAreUnique(step.branches, k);
      KeysApartInBranch(w, step.branches, node.path, 0, all, k);
      hide Traced, Single, Adds, Selection, CheckStepSources;
      var inside := Ids(step.branches[k].steps);
      var selected, marking := Reported(chosen, node, Success), SkipBranches(w, step.branches, node.path, 0, k);
      var skipped := selected.(reports := selected.reports + marking.reports);
      SameHistory(chosen, skipped, all, StepIds(step));
      if marking.whole {
        SingleShrinks(skipped.notes, StepIds(step), inside);
        StepsAreTraced(w, step.branches[k].steps, node.path + [k], 0, false, skipped, s, all);
        var st' := RunSteps(w, step.branches[k].steps, node.path + [k], 0, false, skipped).1;
        AddsTwice(st.notes, chosen.notes, st'.notes, {}, inside);
        AddsMore(st.notes, st'.notes, {} + inside, StepIds(step));
      } else {
        SingleShrinks(skipped.notes, StepIds(step), {});
        AddsMore(st.notes, skipped.notes, {}, StepIds(step));
      }
    } else {
      SingleShrinks(chosen.notes, StepIds(step), {});
      AddsMore(st.notes, chosen.notes, {}, StepIds(step));
    }
  }

  lemma PlainAddsNothing(notes: seq<Note>, more: seq<Note>)
    requires OnlyPlain(notes, more)
    ensures Adds(notes, more, {})
  {
  }

  /**
   * Provenance: in any run of an accepted workflow in which no wait or request without an id is stored
   * under the id of another step, every extraction reads what the history says - of the step it names,
   * or of the last one - and no two receipts of the run carry the same node id, so that the step it
   * names has received only once.
   */
  lemma ExtractionsReadTheirSource(g: Grammar, w: World, steps: seq<Step>, tick: nat, k: nat)
    requires Accepts(g, steps) && KeysApart(w, steps, [], 0, Ids(steps)) && k < |Run(w, steps, tick).1.notes|
    ensures var notes := Run(w, steps, tick).1.notes;
            ReadsTruly(notes, k) && Single(notes, {})
  {
    StepsRegisterIds(g, steps, 0, EMPTY_SCOPE, {});
    if w.enters(tick) {
      StepsAreTraced(w, steps, [], 0, true, Initial(tick + 1), NO_SOURCES, Ids(steps));
    }
  }

  // ----- a node id that reads like a path -----

  /** Two waits, the second without an id, and an extraction that names the first. */
  function Lookalikes(id: string): seq<Step> {
    [Wait(Some(id), 60, []), Wait(None, 60, []),
     Extract(None, WaitText, id, "", Extraction("x", false, None, WholeText, Text, None, None, None))]
  }

  lemma LookalikesAreAccepted(g: Grammar, id: string)
    requires g.validName("x") && 1 <= |id| <= 100
    ensures Accepts(g, Lookalikes(id))
  {
    var steps := Lookalikes(id);
    var waited, filled := EMPTY_SCOPE.(hasWait := true), Sources(map[id := WaitKind], {WaitKind});
    assert steps[1..] == [steps[1], steps[2]] && steps[1..][1..] == [steps[2]] && [steps[2]][1..] == [];
    assert {} + {id} == {id} && map[][id := WaitKind] == map[id := WaitKind] && {} + {WaitKind} == {WaitKind};
    assert CheckStep(g, steps[0], 0, EMPTY_SCOPE, {}) == Some(Checked(waited, {id}));
    assert CheckStep(g, steps[1], 0, waited, {id}) == Some(Checked(waited, {id}));
    assert CheckStep(g, steps[2], 0, waited, {id}).Some?;
    assert CheckSteps(g, [steps[2]], 0, waited, {id}).Some?;
    assert CheckSteps(g, steps[1..], 0, waited, {id}).Some?;
    assert CheckStepSources(steps[0], NO_SOURCES) == Some(filled);
    assert {WaitKind} + {WaitKind} == {WaitKind} && CheckStepSources(steps[1], filled) == Some(filled);
    assert CheckSources([steps[2]], filled).Some?;
    assert CheckSources(steps[1..], filled).Some?;
  }

  /** A wait without matchers, when a message comes. */
  lemma WaitReceives(w: World, step: Step, path: seq<nat>, st: State, text: string, m: Metadata)
    requires step.Wait? && step.matchers == [] && !w.cancelled(st.tick) && w.reply(st.tick + 1) == Received(text, m)
    ensures var node, (o, st') := NodeAt(step, path, true), RunStep(w, step, path, true, st);
            && o == Done && st'.tick == st.tick + 2 && st'.notes == st.notes + [Heard(node, text, m)]
            && st'.waits == st.waits[StoreKey(w, node) := text]
            && st'.waitMetadata == st.waitMetadata[StoreKey(w, node) := m]
  {
    hide StoreKey;
  }

  /** The extraction reads what is stored under the id it names. */
  lemma ExtractReads(w: World, step: Step, path: seq<nat>, st: State)
    requires step.Extract? && step.source.WaitText? && !w.cancelled(st.tick)
    requires step.sourceNodeId != "" && step.sourceNodeId in st.waits && step.sourceNodeId in st.waitMetadata
    ensures var id, st' := step.sourceNodeId, RunStep(w, step, path, true, st).1;
            st.notes + [ReadWait(id, Input(Some(st.waits[id]), st.waitMetadata[id]))] <= st'.notes
  {
    var id, started := step.sourceNodeId, Reported(Ticked(st), NodeAt(step, path, true), Running);
    var input := Input(Some(st.waits[id]), st.waitMetadata[id]);
    assert WaitInput(step, started) == Ok(input);
    var e := step.extraction.(fromMetadata := step.extraction.mode.MetadataMode? || step.extraction.fromMetadata);
    ExtractionIsPlain(w, [e], true, input, ScratchOf(Noted(started, ReadWait(id, input))));
    hide ExtractAll, WaitInput;
  }

  /** A run of three steps of which the first two complete. */
  lemma ThirdStep(w: World, steps: seq<Step>, st: State)
    requires |steps| == 3
    ensures var (o1, st1) := RunStep(w, steps[0], [0], true, st);
            var (o2, st2) := RunStep(w, steps[1], [1], true, st1);
            o1.Done? && o2.Done? ==> RunSteps(w, steps, [], 0, true, st).1 == RunStep(w, steps[2], [2], true, st2).1
  {
    hide RunStep;
    assert [] + [0] == [0] && [] + [1] == [1] && [] + [2] == [2];
    assert steps[1..] == [steps[1], steps[2]] && steps[1..][1..] == [steps[2]] && [steps[2]][1..] == [];
    var (o1, st1) := RunStep(w, steps[0], [0], true, st);
    var (o2, st2) := RunStep(w, steps[1], [1], true, st1);
    assert RunSteps(w, [steps[2]], [], 2, true, st2).1 == RunStep(w, steps[2], [2], true, st2).1;
    assert o2.Done? ==> RunSteps(w, steps[1..], [], 1, true, st1) == RunSteps(w, [steps[2]], [], 2, true, st2);
  }

  /** In this history the first wait has this id and the second another or none. */
  lemma HeardFirst(first: Note, second: Note, rest: seq<Note>, id: string)
    requires first.Heard? && first.node.id == Some(id) && second.Heard? && second.node.id != Some(id) && id != ""
    requires [first, second] <= rest
    ensures HeardBy(rest[..2], id) == Some(Input(Some(first.text), first.metadata))
  {
    assert rest[..2] == [first, second] && [first, second][..1] == [first];
  }

  /**
   * Ids are free text. If the first wait has for its id the path of the second one, which has none,
   * then the extraction that names the first reads what the second received.
   */
  lemma LookalikeIsRead(g: Grammar, w: World, tick: nat, one: string, two: string, m: Metadata)
    requires g.validName("x") && 1 <= |w.pathText([1])| <= 100 && one != two
    requires w.enters(tick) && forall n :: !w.cancelled(n)
    requires w.reply(tick + 2) == Received(one, m) && w.reply(tick + 4) == Received(two, m)
    ensures var steps := Lookalikes(w.pathText([1]));
            var notes := Run(w, steps, tick).1.notes;
            && Accepts(g, steps) && !KeysApart(w, steps, [], 0, Ids(steps))
            && |notes| > 2 && notes[2] == ReadWait(w.pathText([1]), Input(Some(two), m)) && !ReadsTruly(notes, 2)
  {
    hide RunStep, RunSteps, Accepts, HeardBy, KeysApart;
    var id := w.pathText([1]);
    var steps, st := Lookalikes(id), Initial(tick + 1);
    LookalikesAreAccepted(g, id);
    LookalikesAreNotApart(w);
    WaitReceives(w, steps[0], [0], st, one, m);
    var st1 := RunStep(w, steps[0], [0], true, st).1;
    WaitReceives(w, steps[1], [1], st1, two, m);
    var st2 := RunStep(w, steps[1], [1], true, st1).1;
    ExtractReads(w, steps[2], [2], st2);
    ThirdStep(w, steps, st);
    var notes := Run(w, steps, tick).1.notes;
    var first, second := Heard(NodeAt(steps[0], [0], true), one, m), Heard(NodeAt(steps[1], [1], true), two, m);
    assert st2.notes == [first, second];
    assert [first, second] <= notes && notes[2] == ReadWait(id, Input(Some(two), m));
    HeardFirst(first, second, notes, id);
  }

  lemma LookalikesAreNotApart(w: World)
    requires w.pathText([1]) != ""
    ensures var steps := Lookalikes(w.pathText([1])); !KeysApart(w, steps, [], 0, Ids(steps))
  {
    var steps := Lookalikes(w.pathText([1]));
    assert steps[1..][0] == steps[1] && [] + [1] == [1];
    assert w.pathText([1]) in StepIds(steps[0]);
    assert !StepKeysApart(w, steps[1], [1], Ids(steps));
    assert !KeysApart(w, steps[1..], [], 1, Ids(steps));
  }
}
