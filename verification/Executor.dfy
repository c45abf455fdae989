/**
 * The executor as it is written: a context whose fields the step handlers assign, loops over steps,
 * branches, rules and extractions. Each method leaves the context in exactly the state that the
 * functions of `Interpreter`, about which the theorems are proved, compute.
 */
module Executor {
  import opened Wrappers
  import opened Workflow
  import opened Interpreter

  class ExecutionContext {
    const world: World
    var variables: Variables
    var currentMessage: bool
    var lastWaitText: Option<string>
    var lastWaitMetadata: Metadata
    var httpResponse: Option<Response>
    var httpResponses: map<string, Response>
    var waitMessages: map<string, string>
    var waitMetadata: map<string, Metadata>
    var tick: nat
    var notes: seq<Note>
    var reports: seq<Report>

    constructor (w: World, tick: nat)
      ensures world == w && Snapshot() == Initial(tick)
    {
      world := w;
      variables, currentMessage, lastWaitText, lastWaitMetadata := map[], false, None, map[];
      httpResponse, httpResponses, waitMessages, waitMetadata := None, map[], map[], map[];
      this.tick, notes, reports := tick, [], [];
    }

    function Snapshot(): State
      reads this
    {
      State(variables, currentMessage, lastWaitText, lastWaitMetadata, httpResponse, httpResponses, waitMessages,
            waitMetadata, tick, notes, reports)
    }

    method ExtractVariables(extracts: seq<Extraction>, strict: bool, input: Input, budget: Budget)
      returns (r: Eval<()>, left: Budget)
      modifies this`variables, this`notes
      ensures (r, Scratch(variables, left, notes))
              == ExtractAll(world, extracts, strict, input, Scratch(old(variables), budget, old(notes)))
    {
      left := budget;
      var i := 0;
      while i < |extracts|
        invariant 0 <= i <= |extracts|
        invariant ExtractAll(world, extracts[i..], strict, input, Scratch(variables, left, notes))
                  == ExtractAll(world, extracts, strict, input, Scratch(old(variables), budget, old(notes)))
      {
        var x, spent := ExtractOne(world, extracts[i], input, left).0, ExtractOne(world, extracts[i], input, left).1;
        assert extracts[i..][1..] == extracts[i + 1..];
        left := spent;
        notes := notes + [Extracted(x)];
        match x {
          case Value(v) => variables := variables[extracts[i].name := v];
          case Raise(e) =>
            variables := variables - {extracts[i].name};
            if strict {
              return Raise(e), left;
            }
          case Crash(f) => return Crash(f), left;
        }
        i := i + 1;
      }
      return Value(()), left;
    }

    method EvaluateBranch(rules: seq<Rule>, all: bool, strict: bool, budget: Budget) returns (r: Eval<bool>, left: Budget)
      modifies this`notes
      ensures (r, Scratch(variables, left, notes))
              == EvaluateRules(world, rules, all, all, strict, Scratch(variables, budget, old(notes)))
    {
      left := budget;
      var i := 0;
      while i < |rules|
        invariant 0 <= i <= |rules|
        invariant EvaluateRules(world, rules[i..], all, all, strict, Scratch(variables, left, notes))
                  == EvaluateRules(world, rules, all, all, strict, Scratch(variables, budget, old(notes)))
      {
        var x, spent := EvaluateRule(world, rules[i], variables, left).0, EvaluateRule(world, rules[i], variables, left).1;
        assert rules[i..][1..] == rules[i + 1..];
        left := spent;
        notes := notes + [Evaluated(x)];
        if x.Crash? || (x.Raise? && strict) {
          return x, left;
        }
        var result := x.Value? && x.v;
        if all && !result {
          return Value(false), left;
        }
        if !all && result {
          return Value(true), left;
        }
        i := i + 1;
      }
      return Value(all), left;
    }

    method SelectBranch(step: Step) returns (r: Eval<nat>)
      requires step.Condition?
      modifies this`variables, this`notes, this`tick
      ensures (r, Snapshot()) == Selection(world, step, old(Snapshot()))
      ensures r.Value? ==> r.v < |step.branches|
    {
      var input := Input(lastWaitText, lastWaitMetadata);
      var x, left := ExtractVariables(step.extracts, step.strict, input, Budget(NODE_BUDGET, tick));
      if !x.Value? {
        tick := left.tick;
        return if x.Raise? then Raise(x.e) else Crash(x.f);
      }
      ghost var s := Scratch(variables, left, notes);
      var i := 0;
      while i < |step.branches| && !step.branches[i].kind.Else?
        invariant 0 <= i <= |step.branches|
        invariant variables == s.vars
        invariant SelectFrom(world, step.branches[i..], i, step.strict, Scratch(variables, left, notes))
                  == SelectFrom(world, step.branches, 0, step.strict, s)
      {
        assert step.branches[i..][1..] == step.branches[i + 1..];
        var matched, rest := EvaluateBranch(step.branches[i].rules, step.branches[i].all, step.strict, left);
        left := rest;
        match matched {
          case Value(true) =>
            tick := left.tick;
            return Value(i);
          case Value(false) =>
          case Raise(e) =>
            tick := left.tick;
            return Raise(e);
          case Crash(f) =>
            tick := left.tick;
            return Crash(f);
        }
        i := i + 1;
      }
      tick := left.tick;
      return if i < |step.branches| then Value(i) else Raise(NoElse);
    }

    method SendMessage(step: Step) returns (o: Outcome)
      requires step.Send?
      modifies this`currentMessage, this`tick
      ensures (o, Snapshot()) == RunSend(world, step, old(Snapshot()))
    {
      var messages := match step.message {
        case FixedText(text) => [text]
        case Manual(candidates) => candidates
        case Group(id) => world.groupMessages(tick, id).GetOr([])
      };
      if messages == [] {
        return Stopped(External);
      }
      var text := if step.message.FixedText? then messages[0] else messages[world.choose(tick) % |messages|];
      if !Renders(world, text, variables) {
        return Stopped(ConditionFailed(MissingVariable));
      }
      var sent := world.sends(tick);
      tick := tick + 1;
      if !sent {
        return Stopped(Unanswered(world, tick - 1));
      }
      currentMessage := true;
      return Done;
    }

    method WaitMessage(step: Step, node: Node) returns (o: Outcome)
      requires step.Wait?
      modifies this`currentMessage, this`lastWaitText, this`lastWaitMetadata, this`waitMessages, this`waitMetadata,
               this`tick, this`notes
      ensures (o, Snapshot()) == RunWait(world, step, node, old(Snapshot()))
    {
      if !RendersAll(world, step.matchers, variables) {
        return Stopped(ConditionFailed(MissingVariable));
      }
      var reply := world.reply(tick);
      tick := tick + 1;
      if reply.NotReceived? {
        return Stopped(Unanswered(world, tick - 1));
      }
      currentMessage := true;
      lastWaitText, lastWaitMetadata := Some(reply.text), reply.metadata;
      var key := StoreKey(world, node);
      waitMessages := waitMessages[key := reply.text];
      waitMetadata := waitMetadata[key := lastWaitMetadata];
      notes := notes + [Heard(node, reply.text, reply.metadata)];
      return Done;
    }

    method ClickButton(step: Step) returns (o: Outcome)
      requires step.Click?
      modifies this`lastWaitMetadata, this`tick
      ensures (o, Snapshot()) == RunClick(world, step, old(Snapshot()))
    {
      if !currentMessage {
        return Stopped(NoMessage);
      }
      if !RendersAll(world, step.texts, variables) {
        return Stopped(ConditionFailed(MissingVariable));
      }
      var callback := world.clicks(tick);
      tick := tick + 1;
      if callback == None {
        return Stopped(Unanswered(world, tick - 1));
      }
      lastWaitMetadata := Put(lastWaitMetadata, CALLBACK_TEXT, callback.value.text);
      lastWaitMetadata := Put(lastWaitMetadata, CALLBACK_BASE64, callback.value.base64);
      return Done;
    }

    method HttpRequest(step: Step, node: Node) returns (o: Outcome)
      requires step.Http?
      modifies this`httpResponse, this`httpResponses, this`tick, this`notes
      ensures (o, Snapshot()) == RunHttp(world, step, node, old(Snapshot()))
    {
      if !Renders(world, step.url, variables) || !RendersAll(world, step.headers, variables) {
        return Stopped(ConditionFailed(MissingVariable));
      }
      if step.body.Some? && !Renders(world, step.body.value, variables) {
        return Stopped(ConditionFailed(MissingVariable));
      }
      var response := world.respond(tick);
      tick := tick + 1;
      if response == None {
        return Stopped(Unanswered(world, tick - 1));
      }
      httpResponse := response;
      httpResponses := httpResponses[StoreKey(world, node) := response.value];
      notes := notes + [Fetched(node, response.value)];
      return Done;
    }

    method ExtractFromWait(step: Step) returns (o: Outcome)
      requires step.Extract?
      modifies this`variables, this`tick, this`notes
      ensures (o, Snapshot()) == RunWaitExtract(world, step, old(Snapshot()))
    {
      var id, metadataMode := step.sourceNodeId, step.extraction.mode.MetadataMode?;
      if id != "" && id !in waitMessages {
        return Stopped(SourceMissing(id));
      }
      var raw := if id != "" then Some(waitMessages[id]) else lastWaitText;
      if raw == None && !metadataMode {
        return Stopped(NothingToExtract);
      }
      var metadata := if id == "" then lastWaitMetadata else if id in waitMetadata then waitMetadata[id] else map[];
      var extraction := step.extraction.(fromMetadata := metadataMode || step.extraction.fromMetadata);
      notes := notes + [ReadWait(id, Input(raw, metadata))];
      var x, left := ExtractVariables([extraction], true, Input(raw, metadata), Budget(NODE_BUDGET, tick));
      tick := left.tick;
      return Stop(x);
    }

    method ExtractFromHttp(step: Step) returns (o: Outcome)
      requires step.Extract?
      modifies this`variables, this`notes
      ensures (o, Snapshot()) == RunHttpExtract(world, step, old(Snapshot()))
    {
      var id := step.sourceNodeId;
      if id != "" && id !in httpResponses {
        return Stopped(SourceMissing(id));
      }
      var source := if id != "" then Some(httpResponses[id]) else httpResponse;
      if source == None {
        return Stopped(NothingToExtract);
      }
      notes := notes + [ReadResponse(id, source.value)];
      var raw := match step.source {
        case HttpStatus => source.value.status
        case HttpHeaders => source.value.headers
        case _ => source.value.text
      };
      if step.path != "" && !step.source.HttpStatus? && !step.source.HttpHeaders? {
        var found := world.lookup(raw, step.path);
        if found == None {
          return Stopped(External);
        }
        raw := found.value;
      }
      var x := Convert(world, raw, step.extraction.valueType);
      if x.Value? {
        variables := variables[step.extraction.name := x.v];
      }
      return match x case Value(_) => Done case Raise(e) => Stopped(ConditionFailed(e)) case Crash(f) => Stopped(Crashed(f));
    }

    method ReportStatus(node: Node, status: Status)
      modifies this`reports
      ensures reports == old(reports) + [Report(node, status)]
    {
      reports := reports + [Report(node, status)];
    }

    method MarkStepsSkipped(steps: seq<Step>, prefix: seq<nat>) returns (whole: bool)
      modifies this`reports
      ensures reports == old(reports) + SkipSteps(world, steps, prefix, 0).reports
      ensures whole == SkipSteps(world, steps, prefix, 0).whole
      decreases steps
    {
      var i := 0;
      while i < |steps|
        invariant 0 <= i <= |steps|
        invariant reports + SkipSteps(world, steps[i..], prefix, i).reports
                  == old(reports) + SkipSteps(world, steps, prefix, 0).reports
        invariant SkipSteps(world, steps[i..], prefix, i).whole == SkipSteps(world, steps, prefix, 0).whole
      {
        ghost var before := reports;
        var step, path := steps[i], prefix + [i];
        assert steps[i..][1..] == steps[i + 1..];
        ghost var here, later := SkipStep(world, step, path), SkipSteps(world, steps[i + 1..], prefix, i + 1);
        assert SkipSteps(world, steps[i..], prefix, i) == Then(here, later);
        ReportStatus(NodeAt(step, path, false), Skipped);
        whole := WellFormed(world, step);
        if whole && step.Condition? {
          whole := MarkBranchesSkipped(step.branches, path, |step.branches|);
        }
        assert reports == before + here.reports && whole == here.whole;
        if !whole {
          return;
        }
        assert (before + here.reports) + later.reports == before + (here.reports + later.reports);
        i := i + 1;
      }
      return true;
    }

    /** Skip every branch but the one at `keep`. */
    method MarkBranchesSkipped(branches: seq<Branch>, path: seq<nat>, keep: nat) returns (whole: bool)
      modifies this`reports
      ensures reports == old(reports) + SkipBranches(world, branches, path, 0, keep).reports
      ensures whole == SkipBranches(world, branches, path, 0, keep).whole
      decreases branches
    {
      var b := 0;
      while b < |branches|
        invariant 0 <= b <= |branches|
        invariant reports + SkipBranches(world, branches[b..], path, b, keep).reports
                  == old(reports) + SkipBranches(world, branches, path, 0, keep).reports
        invariant SkipBranches(world, branches[b..], path, b, keep).whole
                  == SkipBranches(world, branches, path, 0, keep).whole
      {
        ghost var before := reports;
        ghost var here := if b == keep then Marking(true, []) else SkipSteps(world, branches[b].steps, path + [b], 0);
        ghost var later := SkipBranches(world, branches[b + 1..], path, b + 1, keep);
        assert branches[b..][1..] == branches[b + 1..];
        assert SkipBranches(world, branches[b..], path, b, keep) == Then(here, later);
        whole := true;
        if b != keep {
          whole := MarkStepsSkipped(branches[b].steps, path + [b]);
        }
        assert reports == before + here.reports && whole == here.whole;
        if !whole {
          return;
        }
        assert (before + here.reports) + later.reports == before + (here.reports + later.reports);
        b := b + 1;
      }
      return true;
    }

    method ExecutePlain(step: Step, node: Node) returns (o: Outcome)
      requires !step.Condition?
      modifies this
      ensures (o, Snapshot()) == RunPlain(world, step, node, old(Snapshot()))
    {
      match step {
        case Send(_, _) => o := SendMessage(step);
        case Wait(_, _, _) => o := WaitMessage(step, node);
        case Click(_, _, _, _) => o := ClickButton(step);
        case Http(_, _, _, _, _) => o := HttpRequest(step, node);
        case Extract(_, WaitText, _, _, _) => o := ExtractFromWait(step);
        case Extract(_, _, _, _, _) => o := ExtractFromHttp(step);
      }
    }

    method ExecuteCondition(step: Step, node: Node) returns (o: Outcome)
      requires step.Condition?
      modifies this
      ensures (o, Snapshot()) == RunCondition(world, step, node, old(Snapshot()))
      decreases step, 0
    {
      var selected := SelectBranch(step);
      match selected {
        case Value(k) =>
          ReportStatus(node, Success);
          var whole := MarkBranchesSkipped(step.branches, node.path, k);
          if !whole {
            return Stopped(Malformed);
          }
          o := ExecuteSteps(step.branches[k].steps, node.path + [k], false);
        case Raise(e) => o := Stopped(ConditionFailed(e));
        case Crash(f) => o := Stopped(Crashed(f));
      }
    }

    method ExecuteStep(step: Step, path: seq<nat>, top: bool) returns (o: Outcome)
      modifies this
      ensures (o, Snapshot()) == RunStep(world, step, path, top, old(Snapshot()))
      decreases step, 1
    {
      hide RunPlain, RunCondition, NodeAt;
      var node := NodeAt(step, path, top);
      if !WellFormed(world, step) {
        return Stopped(Malformed);
      }
      var cancelled := world.cancelled(tick);
      tick := tick + 1;
      if cancelled {
        return Stopped(Cancelled);
      }
      ReportStatus(node, Running);
      if step.Condition? {
        o := ExecuteCondition(step, node);
      } else {
        o := ExecutePlain(step, node);
      }
      if o.Stopped? {
        ReportStatus(node, Failed);
      } else if !step.Condition? {
        ReportStatus(node, Success);
      }
    }

    method ExecuteSteps(steps: seq<Step>, prefix: seq<nat>, top: bool) returns (o: Outcome)
      modifies this
      ensures (o, Snapshot()) == RunSteps(world, steps, prefix, 0, top, old(Snapshot()))
      decreases steps, 0
    {
      var i := 0;
      while i < |steps|
        invariant 0 <= i <= |steps|
        invariant RunSteps(world, steps[i..], prefix, i, top, Snapshot())
                  == RunSteps(world, steps, prefix, 0, top, old(Snapshot()))
      {
        assert steps[i..][1..] == steps[i + 1..];
        o := ExecuteStep(steps[i], prefix + [i], top);
        if o.Stopped? {
          return o;
        }
        i := i + 1;
      }
      return Done;
    }

    /** One attempt, in a context just made. */
    method Execute(steps: seq<Step>) returns (o: Outcome)
      requires Snapshot() == Initial(tick)
      modifies this
      ensures (o, Snapshot()) == Run(world, steps, old(tick))
    {
      var entered := world.enters(tick);
      tick := tick + 1;
      if !entered {
        return Stopped(Unanswered(world, tick - 1));
      }
      o := ExecuteSteps(steps, [], true);
    }
  }
}
