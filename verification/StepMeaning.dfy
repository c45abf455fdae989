/** When a step of a run succeeds, what it leaves behind, and when steps can be marked as skipped. */
module StepMeaning {
  import opened Wrappers
  import opened Workflow
  import opened Interpreter
  import opened ExtractionMeaning

  /** Every variable that one of the texts names is set. */
  ghost predicate AllSet(w: World, texts: seq<string>, vars: Variables) {
    forall text, n :: text in texts && n in w.grammar.templateNames(text) ==> n in vars
  }

  /** The texts of a request. */
  function RequestTexts(step: Step): seq<string>
    requires step.Http?
  {
    [step.url] + step.headers + if step.body.Some? then [step.body.value] else []
  }

  /** A call that got no answer: the run was cancelled, or the step has failed. */
  predicate GaveUp(w: World, o: Outcome, tick: nat) {
    o == Stopped(if w.interrupted(tick) then Cancelled else External)
  }

  predicate Unset(o: Outcome) { o == Stopped(ConditionFailed(MissingVariable)) }

  lemma RenderedIsSet(w: World, texts: seq<string>, vars: Variables)
    ensures RendersAll(w, texts, vars) <==> AllSet(w, texts, vars)
  {
    if RendersAll(w, texts, vars) {
      forall text, n | text in texts && n in w.grammar.templateNames(text)
        ensures n in vars
      {
        var k :| 0 <= k < |texts| && texts[k] == text;
        assert Renders(w, texts[k], vars);
      }
    }
    if AllSet(w, texts, vars) {
      forall k | 0 <= k < |texts|
        ensures Renders(w, texts[k], vars)
      {
        forall n | n in w.grammar.templateNames(texts[k])
          ensures n in vars
        {
        }
      }
    }
  }

  /**
   * A request is sent if every variable in its URL, headers and body is set; its response is then the last
   * one, and that of the step.
   */
  lemma RequestIsMade(w: World, step: Step, node: Node, st: State)
    requires step.Http?
    ensures var (o, st') := RunHttp(w, step, node, st);
            if !AllSet(w, RequestTexts(step), st.vars) then Unset(o) && st' == st
            else if w.respond(st.tick) == None then GaveUp(w, o, st.tick)
            else
              && o == Done && st'.http == w.respond(st.tick)
              && st'.responses == st.responses[StoreKey(w, node) := w.respond(st.tick).value]
  {
    var texts := RequestTexts(step);
    RenderedIsSet(w, texts, st.vars);
    assert texts[0] == step.url;
    assert forall k :: 0 <= k < |step.headers| ==> texts[k + 1] == step.headers[k];
    assert step.body.Some? ==> texts[|step.headers| + 1] == step.body.value;
    assert RendersAll(w, texts, st.vars)
      <==> Renders(w, step.url, st.vars) && RendersAll(w, step.headers, st.vars)
           && (step.body.Some? ==> Renders(w, step.body.value, st.vars));
  }

  /** A wait compares replies with its matchers if every variable in them is set; what it receives is the last message. */
  lemma ReplyIsStored(w: World, step: Step, node: Node, st: State)
    requires step.Wait?
    ensures var (o, st') := RunWait(w, step, node, st);
            if !AllSet(w, step.matchers, st.vars) then Unset(o) && st' == st
            else if w.reply(st.tick).NotReceived? then GaveUp(w, o, st.tick)
            else
              var reply := w.reply(st.tick);
              && o == Done && st'.message && st'.lastText == Some(reply.text) && st'.lastMetadata == reply.metadata
              && st'.waits == st.waits[StoreKey(w, node) := reply.text]
              && st'.waitMetadata == st.waitMetadata[StoreKey(w, node) := reply.metadata]
  {
    RenderedIsSet(w, step.matchers, st.vars);
  }

  /** A button can be clicked if there is a message and every variable in the texts looked for is set. */
  lemma ButtonIsClicked(w: World, step: Step, st: State)
    requires step.Click?
    ensures var (o, st') := RunClick(w, step, st);
            if !st.message then o == Stopped(NoMessage) && st' == st
            else if !AllSet(w, step.texts, st.vars) then Unset(o) && st' == st
            else if w.clicks(st.tick) == None then GaveUp(w, o, st.tick)
            else o == Done && st'.lastMetadata == AfterClick(st.lastMetadata, w.clicks(st.tick).value)
  {
    RenderedIsSet(w, step.texts, st.vars);
  }

  // ----- clicks and sends -----

  /** After a click its callback data can be read from the metadata, where the button has any; the rest stays. */
  lemma CallbackCanBeRead(m: Metadata, callback: Callback, field: string)
    ensures Given(Extraction("x", true, Some(field), MetadataMode, Text, None, None, None), Input(None, AfterClick(m, callback)))
            == if field == "runtime.last_clicked_callback_data_text" then callback.text
               else if field == "runtime.last_clicked_callback_data_base64" then callback.base64
               else if field in m then Some(m[field]) else None
  {
    assert CALLBACK_TEXT[|CALLBACK_TEXT| - 1] != CALLBACK_BASE64[|CALLBACK_BASE64| - 1];
  }

  /** The texts that a send step chooses from. */
  function Candidates(w: World, step: Step, st: State): seq<string>
    requires step.Send?
  {
    match step.message
    case FixedText(text) => [text]
    case Manual(messages) => messages
    case Group(id) => if w.groupMessages(st.tick, id).Some? then w.groupMessages(st.tick, id).value else []
  }

  /** A send step sends one of its candidates, in which every variable is set; with no candidate it sends nothing. */
  lemma OneCandidateIsSent(w: World, step: Step, st: State)
    requires step.Send?
    ensures var texts := Candidates(w, step, st);
            RunSend(w, step, st).0 == Done
            <==> && texts != [] && w.sends(st.tick)
                 && w.grammar.templateNames(texts[if |texts| == 1 then 0 else w.choose(st.tick) % |texts|]) <= st.vars.Keys
  {
  }

  // ----- skipping -----

  /** Every legacy condition among the steps, at any depth, can be normalized. */
  predicate Normalizable(w: World, steps: seq<Step>)
    decreases steps, 0
  {
    steps == [] || (StepNormalizable(w, steps[0]) && Normalizable(w, steps[1..]))
  }

  predicate StepNormalizable(w: World, step: Step)
    decreases step, 1
  {
    step.Condition? ==> && (step.version2 || w.normalizes(step.extracts, Heads(step.branches)))
                        && BranchesNormalizable(w, step.branches, 0, |step.branches|)
  }

  /** So it is in all branches but the one at `keep`; the first branch given is number `b`. */
  predicate BranchesNormalizable(w: World, branches: seq<Branch>, b: nat, keep: nat)
    decreases branches, 0
  {
    branches == []
    || ((b == keep || Normalizable(w, branches[0].steps)) && BranchesNormalizable(w, branches[1..], b + 1, keep))
  }

  /** Marking steps as skipped gets to the end exactly if all legacy conditions among them can be normalized. */
  lemma {:induction false} SkippingGoesThrough(w: World, steps: seq<Step>, prefix: seq<nat>, i: nat)
    ensures SkipSteps(w, steps, prefix, i).whole <==> Normalizable(w, steps)
    decreases steps, 0
  {
    if steps != [] {
      SkippingStepGoesThrough(w, steps[0], prefix + [i]);
      SkippingGoesThrough(w, steps[1..], prefix, i + 1);
    }
  }

  lemma {:induction false} SkippingStepGoesThrough(w: World, step: Step, path: seq<nat>)
    ensures SkipStep(w, step, path).whole <==> StepNormalizable(w, step)
    decreases step, 1
  {
    if step.Condition? {
      SkippingBranchesGoesThrough(w, step.branches, path, 0, |step.branches|);
    }
  }

  lemma {:induction false} SkippingBranchesGoesThrough(w: World, branches: seq<Branch>, path: seq<nat>, b: nat, keep: nat)
    ensures SkipBranches(w, branches, path, b, keep).whole <==> BranchesNormalizable(w, branches, b, keep)
    decreases branches, 0
  {
    if branches != [] {
      SkippingGoesThrough(w, branches[0].steps, path + [b], 0);
      SkippingBranchesGoesThrough(w, branches[1..], path, b + 1, keep);
    }
  }

  /**
   * A condition that selects a branch runs exactly the steps of that branch, unless a legacy condition in
   * one of the others cannot be normalized: then it fails without running any.
   */
  lemma SelectedBranchIsRun(w: World, step: Step, node: Node, st: State)
    requires step.Condition? && Selection(w, step, st).0.Value?
    ensures var (k, st') := (Selection(w, step, st).0.v, Selection(w, step, st).1);
            var marked := st'.(reports := st'.reports + [Report(node, Success)]
                                          + SkipBranches(w, step.branches, node.path, 0, k).reports);
            RunCondition(w, step, node, st)
            == if BranchesNormalizable(w, step.branches, 0, k)
               then RunSteps(w, step.branches[k].steps, node.path + [k], 0, false, marked)
               else (Stopped(Malformed), marked)
  {
    hide Selection, RunSteps, SkipBranches, BranchesNormalizable;
    SkippingBranchesGoesThrough(w, step.branches, node.path, 0, Selection(w, step, st).0.v);
  }
}
