/**
 * The validator as it is written: loops that grow the scope dictionaries and one set of node ids that
 * the whole traversal shares. Each method accepts, and leaves behind, exactly what the functions of
 * `Checker`, about which the theorems are proved, compute.
 */
module Validator {
  import opened Wrappers
  import opened Workflow
  import opened Checker
  import opened WellFormed
  import Acceptance

  class WorkflowValidator {
    const grammar: Grammar
    var nodeIds: set<string>

    constructor (g: Grammar)
      ensures grammar == g && nodeIds == {}
    {
      grammar := g;
      nodeIds := {};
    }

    method ValidateNodeId(id: Option<string>) returns (ok: bool)
      modifies this
      ensures ok <==> CheckNodeId(id, old(nodeIds)).Some?
      ensures ok ==> CheckNodeId(id, old(nodeIds)) == Some(nodeIds)
    {
      if id == None {
        return true;
      }
      if !(1 <= |id.value| <= 100) || id.value in nodeIds {
        return false;
      }
      nodeIds := nodeIds + {id.value};
      return true;
    }

    method ValidateExtracts(extracts: seq<Extraction>, possible: Types) returns (r: Option<Types>)
      ensures r == Declare(grammar, extracts, map[], possible)
    {
      var declared: Types, i := map[], 0;
      while i < |extracts|
        invariant 0 <= i <= |extracts|
        invariant Declare(grammar, extracts[i..], declared, possible) == Declare(grammar, extracts, map[], possible)
      {
        assert extracts[i..][1..] == extracts[i + 1..];
        if !ExtractOk(grammar, extracts[i], declared, possible) {
          return None;
        }
        declared := declared[extracts[i].name := extracts[i].valueType];
        i := i + 1;
      }
      return Some(declared);
    }

    static method MergeScopes(scopes: seq<Scope>) returns (r: Option<Scope>)
      requires scopes != []
      ensures r == Merge(scopes)
    {
      var possible: Types, common, hasWait, i := map[], scopes[0].definite.Keys, true, 0;
      while i < |scopes|
        invariant 0 <= i <= |scopes|
        invariant MergePossible(scopes[i..], possible) == MergePossible(scopes, map[])
        invariant common == if i == 0 then scopes[0].definite.Keys else CommonDefinite(scopes[..i])
        invariant hasWait <==> forall k :: 0 <= k < i ==> scopes[k].hasWait
      {
        var scope := scopes[i];
        assert scopes[i..][1..] == scopes[i + 1..];
        if exists name :: name in scope.possible && name in possible && scope.possible[name] != possible[name] {
          return None;
        }
        CommonDefiniteGrows(scopes[..i], scope);
        assert scopes[..i + 1] == scopes[..i] + [scope];
        possible, common, hasWait := possible + scope.possible, common * scope.definite.Keys, hasWait && scope.hasWait;
        i := i + 1;
      }
      assert scopes[..i] == scopes;
      CommonDefiniteIn(scopes, 0);
      return Some(Scope(map name | name in common :: scopes[0].definite[name], possible, hasWait));
    }

    method ValidateSequence(steps: seq<Step>, depth: nat, initial: Scope) returns (r: Option<Scope>)
      modifies this
      ensures CheckSteps(grammar, steps, depth, initial, old(nodeIds))
              == if r.Some? then Some(Checked(r.value, nodeIds)) else None
      decreases steps, 0
    {
      var scope, i := initial, 0;
      while i < |steps|
        invariant 0 <= i <= |steps|
        invariant CheckSteps(grammar, steps[i..], depth, scope, nodeIds)
                  == CheckSteps(grammar, steps, depth, initial, old(nodeIds))
      {
        assert steps[i..][1..] == steps[i + 1..];
        var checked := ValidateStep(steps[i], depth, scope);
        if checked == None {
          return None;
        }
        scope := checked.value;
        i := i + 1;
      }
      return Some(scope);
    }

    method ValidateStep(step: Step, depth: nat, scope: Scope) returns (r: Option<Scope>)
      modifies this
      ensures CheckStep(grammar, step, depth, scope, old(nodeIds))
              == if r.Some? then Some(Checked(r.value, nodeIds)) else None
      decreases step, 1
    {
      if step.Condition? {
        if depth + 1 > MAX_DEPTH {
          return None;
        }
        if step.version2 {
          r := ValidateVersion2(step, depth + 1, scope);
        } else {
          var ok := ValidateLegacy(step, depth + 1, scope);
          r := if ok then Some(scope) else None;
        }
        return;
      }
      var ok := ValidateNodeId(step.nodeId);
      if !ok || !PlainStepOk(grammar, step, scope.possible) {
        return None;
      }
      return Some(PlainScope(step, scope));
    }

    method ValidateVersion2(step: Step, depth: nat, scope: Scope) returns (r: Option<Scope>)
      requires step.Condition?
      modifies this
      ensures CheckVersion2(grammar, step, depth, scope, old(nodeIds))
              == if r.Some? then Some(Checked(r.value, nodeIds)) else None
      decreases step, 0
    {
      if step.nodeId == None {
        return None;
      }
      var ok := ValidateNodeId(step.nodeId);
      if !ok || |step.extracts| > 10 || (step.extracts != [] && !scope.hasWait) {
        return None;
      }
      var declared := ValidateExtracts(step.extracts, scope.possible);
      if declared == None || !(2 <= |step.branches| <= 20) {
        return None;
      }
      var inner := Scope(scope.definite + declared.value, scope.possible + declared.value, scope.hasWait);
      var scopes := ValidateBranches(step.branches, depth, inner);
      if scopes == None {
        return None;
      }
      r := MergeScopes(scopes.value);
    }

    method ValidateBranches(branches: seq<Branch>, depth: nat, scope: Scope) returns (r: Option<seq<Scope>>)
      modifies this
      ensures CheckBranches(grammar, branches, 0, |branches|, depth, scope, old(nodeIds))
              == if r.Some? then Some((r.value, nodeIds)) else None
      decreases branches, 0
    {
      var results: seq<Scope>, i := [], 0;
      ContinuesNothing(CheckBranches(grammar, branches, 0, |branches|, depth, scope, nodeIds));
      while i < |branches|
        invariant 0 <= i <= |branches|
        invariant Continues(results, CheckBranches(grammar, branches[i..], i, |branches|, depth, scope, nodeIds))
                  == CheckBranches(grammar, branches, 0, |branches|, depth, scope, old(nodeIds))
      {
        assert branches[i..][1..] == branches[i + 1..];
        if branches[i].kind != ExpectedKind(i, |branches|) || !BranchRulesOk(grammar, branches[i], scope.possible) {
          return None;
        }
        var result := ValidateSequence(branches[i].steps, depth, scope);
        if result == None {
          return None;
        }
        ContinuesWith(results, result.value,
                      CheckBranches(grammar, branches[i + 1..], i + 1, |branches|, depth, scope, nodeIds));
        results := results + [result.value];
        i := i + 1;
      }
      assert results + [] == results;
      return Some(results);
    }

    method ValidateLegacy(step: Step, depth: nat, scope: Scope) returns (ok: bool)
      requires step.Condition?
      modifies this
      ensures CheckLegacy(grammar, step, depth, scope, old(nodeIds))
              == if ok then Some(Checked(scope, nodeIds)) else None
      decreases step, 0
    {
      var branches := step.branches;
      ok := ValidateNodeId(step.nodeId);
      if !ok || !(2 <= |branches| <= 20) || !branches[0].kind.If? || !branches[|branches| - 1].kind.Else? {
        return false;
      }
      ghost var ids := nodeIds;
      var i := 0;
      while i < |branches|
        invariant 0 <= i <= |branches|
        invariant CheckLegacyBranches(grammar, branches[i..], depth, nodeIds) == CheckLegacyBranches(grammar, branches, depth, ids)
      {
        assert branches[i..][1..] == branches[i + 1..];
        if !branches[i].kind.Else? && !(1 <= |branches[i].rules| <= 10) {
          return false;
        }
        var result := ValidateSequence(branches[i].steps, depth, Scope(map[], map[], true));
        if result == None {
          return false;
        }
        i := i + 1;
      }
      return true;
    }

    static method ValidateSources(steps: seq<Step>, initial: Sources) returns (r: Option<Sources>)
      ensures r == CheckSources(steps, initial)
      decreases steps
    {
      var sources, i := initial, 0;
      while i < |steps|
        invariant 0 <= i <= |steps|
        invariant CheckSources(steps[i..], sources) == CheckSources(steps, initial)
      {
        assert steps[i..][1..] == steps[i + 1..];
        match steps[i] {
          case Condition(_, _, _, _, branches) =>
            if branches == [] {
              return None;
            }
            var results := ValidateBranchSources(branches, sources);
            if results == None {
              return None;
            }
            sources := Common(results.value);
          case Wait(id, _, _) => sources := Filled(sources, id, WaitKind);
          case Http(id, _, _, _, _) => sources := Filled(sources, id, HttpKind);
          case Extract(_, _, _, _, _) =>
            if !SourceAvailable(sources, steps[i]) {
              return None;
            }
          case _ =>
        }
        i := i + 1;
      }
      return Some(sources);
    }

    static method ValidateBranchSources(branches: seq<Branch>, sources: Sources) returns (r: Option<seq<Sources>>)
      ensures r == CheckBranchSources(branches, sources)
      decreases branches
    {
      var results: seq<Sources>, i := [], 0;
      PrependedNothing(CheckBranchSources(branches, sources));
      while i < |branches|
        invariant 0 <= i <= |branches|
        invariant Prepended(results, CheckBranchSources(branches[i..], sources)) == CheckBranchSources(branches, sources)
      {
        assert branches[i..][1..] == branches[i + 1..];
        var result := ValidateSources(branches[i].steps, sources);
        if result == None {
          return None;
        }
        PrependedWith(results, result.value, CheckBranchSources(branches[i + 1..], sources));
        results := results + [result.value];
        i := i + 1;
      }
      assert results + [] == results;
      return Some(results);
    }

    /** Acceptance of a task definition: a fresh set of ids, both passes. */
    static method Validate(g: Grammar, steps: seq<Step>) returns (accepted: bool)
      ensures accepted == Accepts(g, steps)
      ensures accepted <==> WellFormedWorkflow(g, steps)
    {
      Acceptance.AcceptedIsWellFormed(g, steps);
      if steps == [] {
        return false;
      }
      var validator := new WorkflowValidator(g);
      var scope := validator.ValidateSequence(steps, 0, EMPTY_SCOPE);
      if scope == None {
        return false;
      }
      var sources := ValidateSources(steps, NO_SOURCES);
      return sources.Some?;
    }
  }

  ghost function Continues(results: seq<Scope>, rest: Option<(seq<Scope>, set<string>)>): Option<(seq<Scope>, set<string>)> {
    if rest == None then None else Some((results + rest.value.0, rest.value.1))
  }

  lemma ContinuesNothing(rest: Option<(seq<Scope>, set<string>)>)
    ensures Continues([], rest) == rest
  {
    if rest.Some? {
      assert [] + rest.value.0 == rest.value.0;
    }
  }

  lemma ContinuesWith(results: seq<Scope>, next: Scope, rest: Option<(seq<Scope>, set<string>)>)
    ensures Continues(results + [next], rest)
            == Continues(results, if rest == None then None else Some(([next] + rest.value.0, rest.value.1)))
  {
    if rest.Some? {
      assert results + [next] + rest.value.0 == results + ([next] + rest.value.0);
    }
  }

  ghost function Prepended(results: seq<Sources>, rest: Option<seq<Sources>>): Option<seq<Sources>> {
    if rest == None then None else Some(results + rest.value)
  }

  lemma PrependedNothing(rest: Option<seq<Sources>>)
    ensures Prepended([], rest) == rest
  {
    if rest.Some? {
      assert [] + rest.value == rest.value;
    }
  }

  lemma PrependedWith(results: seq<Sources>, next: Sources, rest: Option<seq<Sources>>)
    ensures Prepended(results + [next], rest) == Prepended(results, if rest == None then None else Some([next] + rest.value))
  {
    if rest.Some? {
      assert results + [next] + rest.value == results + ([next] + rest.value);
    }
  }

  lemma {:induction false} CommonDefiniteGrows(scopes: seq<Scope>, scope: Scope)
    ensures CommonDefinite(scopes + [scope])
            == if scopes == [] then scope.definite.Keys else CommonDefinite(scopes) * scope.definite.Keys
    decreases scopes
  {
    if |scopes| >= 1 {
      assert (scopes + [scope])[1..] == scopes[1..] + [scope];
      CommonDefiniteGrows(scopes[1..], scope);
    }
  }
}
