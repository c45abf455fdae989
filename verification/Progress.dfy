/**
 * Step accounting: what a run reports about each node of the workflow, and where those reports land
 * in the run's progress list.
 */
module Progress {
  import opened Wrappers
  import opened Workflow
  import opened Interpreter
  import opened SourceSoundness

  datatype Stage = Pending | At(status: Status)

  /** A progress entry: what identifies the step, and the last status reported for it. */
  datatype Entry = Entry(index: Option<nat>, nodeId: Option<string>, stepPath: Option<seq<nat>>, stage: Stage)

  // ----- the list of entries -----

  function StepId(step: Step): Option<string> { if step.nodeId.Some? && step.nodeId.value != "" then step.nodeId else None }

  /** Only top-level steps without an id go without a path. */
  function Entries(steps: seq<Step>, prefix: seq<nat>, i: nat, top: bool): seq<Entry>
    decreases steps, 0
  {
    if steps == [] then [] else StepEntries(steps[0], prefix, i, top) + Entries(steps[1..], prefix, i + 1, top)
  }

  function StepEntries(step: Step, prefix: seq<nat>, i: nat, top: bool): seq<Entry>
    decreases step, 1
  {
    var path := prefix + [i];
    [Entry(if top then Some(i) else None, StepId(step), if StepId(step).Some? || !top then Some(path) else None, Pending)]
    + if step.Condition? then BranchEntries(step.branches, path, 0) else []
  }

  function BranchEntries(branches: seq<Branch>, path: seq<nat>, b: nat): seq<Entry>
    decreases branches, 0
  {
    if branches == [] then [] else Entries(branches[0].steps, path + [b], 0, false) + BranchEntries(branches[1..], path, b + 1)
  }

  function Listing(steps: seq<Step>): seq<Entry> { Entries(steps, [], 0, true) }

  /** The entry a report names: by node id or path if any matches, else by index. */
  predicate Matches(e: Entry, node: Node) { (node.id.Some? && e.nodeId == node.id) || e.stepPath == Some(node.path) }

  predicate MatchesIndex(e: Entry, node: Node) { node.index.Some? && e.index == node.index }

  function First(entries: seq<Entry>, node: Node, byIndex: bool): (r: nat)
    ensures r <= |entries|
    ensures r < |entries| ==> if byIndex then MatchesIndex(entries[r], node) else Matches(entries[r], node)
    ensures forall k :: 0 <= k < r ==> !(if byIndex then MatchesIndex(entries[k], node) else Matches(entries[k], node))
  {
    if entries == [] || (if byIndex then MatchesIndex(entries[0], node) else Matches(entries[0], node)) then 0
    else 1 + First(entries[1..], node, byIndex)
  }

  /** The position of the entry that a report updates; the number of entries if it is dropped. */
  function Target(entries: seq<Entry>, node: Node): (r: nat)
    ensures r <= |entries|
  {
    if First(entries, node, false) < |entries| then First(entries, node, false) else First(entries, node, true)
  }

  function Update(entries: seq<Entry>, report: Report): (r: seq<Entry>)
    ensures |r| == |entries|
  {
    var k := Target(entries, report.node);
    if k == |entries| then entries else entries[k := entries[k].(stage := At(report.status))]
  }

  function Deliver(entries: seq<Entry>, reports: seq<Report>): (r: seq<Entry>)
    ensures |r| == |entries|
    decreases |reports|
  {
    if reports == [] then entries else Deliver(Update(entries, reports[0]), reports[1..])
  }

  function ResetEntry(e: Entry): Entry { e.(stage := Pending) }

  function ResetAll(entries: seq<Entry>): (r: seq<Entry>)
    ensures |r| == |entries|
  {
    seq(|entries|, k requires 0 <= k < |entries| => ResetEntry(entries[k]))
  }

  function FinalEntry(e: Entry, success: bool): Entry {
    if e.stage == At(Running) then e.(stage := At(if success then Success else Failed))
    else if e.stage == Pending then e.(stage := At(if success && e.stepPath == None then Success else Skipped))
    else e
  }

  function FinalAll(entries: seq<Entry>, success: bool): (r: seq<Entry>)
    ensures |r| == |entries|
  {
    seq(|entries|, k requires 0 <= k < |entries| => FinalEntry(entries[k], success))
  }

  // ----- the nodes of a workflow -----

  function Nodes(steps: seq<Step>, prefix: seq<nat>, i: nat, top: bool): seq<Node>
    decreases steps, 0
  {
    if steps == [] then [] else StepNodes(steps[0], prefix + [i], top) + Nodes(steps[1..], prefix, i + 1, top)
  }

  function StepNodes(step: Step, path: seq<nat>, top: bool): seq<Node>
    decreases step, 1
  {
    [NodeAt(step, path, top)] + if step.Condition? then BranchNodes(step.branches, path, 0) else []
  }

  function BranchNodes(branches: seq<Branch>, path: seq<nat>, b: nat): seq<Node>
    decreases branches, 0
  {
    if branches == [] then [] else Nodes(branches[0].steps, path + [b], 0, false) + BranchNodes(branches[1..], path, b + 1)
  }

  function AllNodes(steps: seq<Step>): seq<Node> { Nodes(steps, [], 0, true) }

  function EntryOf(n: Node): Entry { Entry(n.index, n.id, if n.id.Some? || n.index == None then Some(n.path) else None, Pending) }

  /** Entry by entry, the list describes the nodes. */
  ghost predicate Describes(entries: seq<Entry>, nodes: seq<Node>) {
    |entries| == |nodes| && forall k :: 0 <= k < |nodes| ==> entries[k] == EntryOf(nodes[k])
  }

  lemma {:induction false} EntriesDescribeNodes(steps: seq<Step>, prefix: seq<nat>, i: nat, top: bool)
    ensures Describes(Entries(steps, prefix, i, top), Nodes(steps, prefix, i, top))
    decreases steps, 0
  {
    if steps != [] {
      StepEntriesDescribeNodes(steps[0], prefix, i, top);
      EntriesDescribeNodes(steps[1..], prefix, i + 1, top);
    }
  }

  lemma {:induction false} StepEntriesDescribeNodes(step: Step, prefix: seq<nat>, i: nat, top: bool)
    ensures Describes(StepEntries(step, prefix, i, top), StepNodes(step, prefix + [i], top))
    decreases step, 1
  {
    if step.Condition? {
      BranchEntriesDescribeNodes(step.branches, prefix + [i], 0);
    }
  }

  lemma {:induction false} BranchEntriesDescribeNodes(branches: seq<Branch>, path: seq<nat>, b: nat)
    ensures Describes(BranchEntries(branches, path, b), BranchNodes(branches, path, b))
    decreases branches, 0
  {
    if branches != [] {
      EntriesDescribeNodes(branches[0].steps, path + [b], 0, false);
      BranchEntriesDescribeNodes(branches[1..], path, b + 1);
    }
  }

  // ----- no two nodes are confused -----

  /** Paths differ, and so do ids where there are any. */
  ghost predicate Separate(nodes: seq<Node>) {
    forall j, k :: 0 <= j < k < |nodes| ==>
      nodes[j].path != nodes[k].path && (nodes[j].id.Some? ==> nodes[j].id != nodes[k].id)
  }

  /** Every path extends `prefix`, going through `i` or later, and every id is one of `ids`. */
  ghost predicate Under(nodes: seq<Node>, prefix: seq<nat>, i: nat, stop: Option<nat>, ids: set<string>) {
    forall k :: 0 <= k < |nodes| ==>
      && |nodes[k].path| > |prefix| && nodes[k].path[..|prefix|] == prefix
      && nodes[k].path[|prefix|] >= i && (stop.Some? ==> nodes[k].path[|prefix|] < stop.value)
      && (nodes[k].id.Some? ==> nodes[k].id.value in ids)
  }

  /** What lies under a longer prefix lies under the shorter one, at its next position. */
  lemma UnderShorter(nodes: seq<Node>, prefix: seq<nat>, i: nat, from: nat, ids: set<string>)
    requires Under(nodes, prefix + [i], from, None, ids)
    ensures Under(nodes, prefix, i, Some(i + 1), ids)
  {
    forall k | 0 <= k < |nodes|
      ensures && |nodes[k].path| > |prefix| && nodes[k].path[..|prefix|] == prefix && nodes[k].path[|prefix|] == i
    {
      var path := nodes[k].path;
      assert path[..|prefix| + 1] == prefix + [i];
      assert path[..|prefix|] == path[..|prefix| + 1][..|prefix|];
      assert path[|prefix|] == path[..|prefix| + 1][|prefix|];
    }
  }

  lemma {:induction false} NodesAreSeparate(steps: seq<Step>, prefix: seq<nat>, i: nat, top: bool)
    requires Unique(steps)
    ensures Separate(Nodes(steps, prefix, i, top)) && Under(Nodes(steps, prefix, i, top), prefix, i, None, Ids(steps))
    decreases steps, 0
  {
    if steps != [] {
      StepNodesAreSeparate(steps[0], prefix, i, top);
      NodesAreSeparate(steps[1..], prefix, i + 1, top);
      var a, b := StepNodes(steps[0], prefix + [i], top), Nodes(steps[1..], prefix, i + 1, top);
    }
  }

  lemma {:induction false} StepNodesAreSeparate(step: Step, prefix: seq<nat>, i: nat, top: bool)
    requires UniqueStep(step)
    ensures var nodes := StepNodes(step, prefix + [i], top);
            Separate(nodes) && Under(nodes, prefix, i, Some(i + 1), StepIds(step))
    decreases step, 1
  {
    var path := prefix + [i];
    var nodes := StepNodes(step, path, top);
    if step.Condition? {
      var nested := BranchNodes(step.branches, path, 0);
      BranchNodesAreSeparate(step.branches, path, 0);
      UnderShorter(nested, prefix, i, 0, BranchIds(step.branches));
      assert nodes == [NodeAt(step, path, top)] + nested;
      forall j, k | 0 <= j < k < |nodes|
        ensures nodes[j].path != nodes[k].path && (nodes[j].id.Some? ==> nodes[j].id != nodes[k].id)
      {
        assert nodes[k] == nested[k - 1];
        assert j > 0 ==> nodes[j] == nested[j - 1];
        assert |nested[k - 1].path| > |path|;
      }
      assert forall k :: 1 <= k < |nodes| ==> nodes[k] == nested[k - 1];
    }
  }

  lemma {:induction false} BranchNodesAreSeparate(branches: seq<Branch>, path: seq<nat>, b: nat)
    requires UniqueBranches(branches)
    ensures var nodes := BranchNodes(branches, path, b);
            Separate(nodes) && Under(nodes, path, b, None, BranchIds(branches))
    decreases branches, 0
  {
    if branches != [] {
      var first, rest := Nodes(branches[0].steps, path + [b], 0, false), BranchNodes(branches[1..], path, b + 1);
      NodesAreSeparate(branches[0].steps, path + [b], 0, false);
      UnderShorter(first, path, b, 0, Ids(branches[0].steps));
      BranchNodesAreSeparate(branches[1..], path, b + 1);
    }
  }

  /** Exactly the top-level nodes have an index, which is their path. */
  ghost predicate Indexed(nodes: seq<Node>, top: bool) {
    forall k :: 0 <= k < |nodes| ==>
      (nodes[k].index.Some? ==> top && nodes[k].path == [nodes[k].index.value])
  }

  lemma {:induction false} NodesAreIndexed(steps: seq<Step>, prefix: seq<nat>, i: nat, top: bool)
    requires top ==> prefix == []
    ensures Indexed(Nodes(steps, prefix, i, top), top)
    decreases steps, 0
  {
    if steps != [] {
      if steps[0].Condition? {
        BranchNodesAreIndexed(steps[0].branches, prefix + [i], 0);
      }
      NodesAreIndexed(steps[1..], prefix, i + 1, top);
    }
  }

  lemma {:induction false} BranchNodesAreIndexed(branches: seq<Branch>, path: seq<nat>, b: nat)
    ensures Indexed(BranchNodes(branches, path, b), false)
    decreases branches, 0
  {
    if branches != [] {
      NodesAreIndexed(branches[0].steps, path + [b], 0, false);
      BranchNodesAreIndexed(branches[1..], path, b + 1);
    }
  }

  /** The entries identify the nodes, whatever stage they are at. */
  ghost predicate Identifies(entries: seq<Entry>, nodes: seq<Node>) {
    |entries| == |nodes| && forall k :: 0 <= k < |nodes| ==> ResetEntry(entries[k]) == EntryOf(nodes[k])
  }

  /** A report about a node updates the entry of that node and no other. */
  lemma {:induction false} ReportsLandOnTheirEntry(entries: seq<Entry>, nodes: seq<Node>, k: nat)
    requires Identifies(entries, nodes) && Separate(nodes) && Indexed(nodes, true) && k < |nodes|
    ensures Target(entries, nodes[k]) == k
  {
    var node := nodes[k];
    forall j | 0 <= j < |nodes| && j != k
      ensures !Matches(entries[j], node) && !MatchesIndex(entries[j], node)
    {
      assert ResetEntry(entries[j]) == EntryOf(nodes[j]);
    }
    assert ResetEntry(entries[k]) == EntryOf(node);
    assert Matches(entries[k], node) || MatchesIndex(entries[k], node);
  }
}
