/**
 * The message library: groups of candidate messages that the send steps of task drafts and of
 * published workflow versions refer to by id. Groups are edited behind the tasks' back, so the
 * references stay alive only because every writer on either side checks the other.
 */
module MessageGroups {
  import opened Wrappers
  import opened Workflow
  import Checker
  import Interpreter

  datatype GroupRow = GroupRow(name: string, messages: seq<string>, revision: nat)

  datatype Definition = Definition(name: string, account: string, steps: seq<Step>)

  /** A task with its editable draft and its published versions, the latest last. */
  datatype Task = Task(id: string, draft: Definition, archived: bool, enabled: bool, versions: seq<seq<Step>>)

  datatype Error = GroupNotFound | GroupConflict | UnknownTask | BadState | NameTaken | UnknownAccount | Integrity

  /** `issued` are all group ids ever given out: a random id never comes back. Tasks are in creation order. */
  datatype Library = Library(groups: map<string, GroupRow>, issued: set<string>, tasks: seq<Task>, accounts: set<string>)

  // ----- walking a workflow -----

  /** All steps at any depth, each before the steps of its branches. */
  function Flatten(steps: seq<Step>): seq<Step>
    decreases steps, 0
  {
    if steps == [] then [] else FlattenStep(steps[0]) + Flatten(steps[1..])
  }

  function FlattenStep(step: Step): seq<Step>
    decreases step, 1
  {
    [step] + if step.Condition? then FlattenBranches(step.branches) else []
  }

  function FlattenBranches(branches: seq<Branch>): seq<Step>
    decreases branches, 0
  {
    if branches == [] then [] else Flatten(branches[0].steps) + FlattenBranches(branches[1..])
  }

  predicate FromGroup(step: Step) { step.Send? && step.message.Group? }

  predicate Names(steps: seq<Step>, id: string) {
    exists k :: 0 <= k < |steps| && FromGroup(steps[k]) && steps[k].message.groupId == id
  }

  predicate UsesGroup(steps: seq<Step>, id: string) { Names(Flatten(steps), id) }

  /** The groups that a workflow's send steps name, read off the tree. */
  function GroupIds(steps: seq<Step>): set<string>
    decreases steps, 0
  {
    if steps == [] then {} else StepGroupIds(steps[0]) + GroupIds(steps[1..])
  }

  function StepGroupIds(step: Step): set<string>
    decreases step, 1
  {
    match step
    case Send(_, Group(id)) => {id}
    case Condition(_, _, _, _, branches) => BranchGroupIds(branches)
    case _ => {}
  }

  function BranchGroupIds(branches: seq<Branch>): set<string>
    decreases branches, 0
  {
    if branches == [] then {} else GroupIds(branches[0].steps) + BranchGroupIds(branches[1..])
  }

  lemma NamesConcat(a: seq<Step>, b: seq<Step>, id: string)
    ensures Names(a + b, id) <==> Names(a, id) || Names(b, id)
  {
    if Names(a, id) {
      var k :| 0 <= k < |a| && FromGroup(a[k]) && a[k].message.groupId == id;
      assert (a + b)[k] == a[k];
    }
    if Names(b, id) {
      var k :| 0 <= k < |b| && FromGroup(b[k]) && b[k].message.groupId == id;
      assert (a + b)[|a| + k] == b[k];
    }
  }

  /** The flat walk finds exactly the groups named anywhere in the tree, at any depth. */
  lemma {:induction false} WalkFindsEveryDepth(steps: seq<Step>, id: string)
    ensures UsesGroup(steps, id) <==> id in GroupIds(steps)
    decreases steps, 0
  {
    if steps != [] {
      StepWalkFindsEveryDepth(steps[0], id);
      WalkFindsEveryDepth(steps[1..], id);
      NamesConcat(FlattenStep(steps[0]), Flatten(steps[1..]), id);
    }
  }

  lemma {:induction false} StepWalkFindsEveryDepth(step: Step, id: string)
    ensures Names(FlattenStep(step), id) <==> id in StepGroupIds(step)
    decreases step, 1
  {
    var nested := if step.Condition? then FlattenBranches(step.branches) else [];
    NamesConcat([step], nested, id);
    if step.Condition? {
      BranchWalkFindsEveryDepth(step.branches, id);
    }
    assert Names([step], id) <==> FromGroup(step) && step.message.groupId == id by {
      assert [step][0] == step;
    }
  }

  lemma {:induction false} BranchWalkFindsEveryDepth(branches: seq<Branch>, id: string)
    ensures Names(FlattenBranches(branches), id) <==> id in BranchGroupIds(branches)
    decreases branches, 0
  {
    if branches != [] {
      WalkFindsEveryDepth(branches[0].steps, id);
      BranchWalkFindsEveryDepth(branches[1..], id);
      NamesConcat(Flatten(branches[0].steps), FlattenBranches(branches[1..]), id);
    }
  }

  // ----- references -----

  predicate References(task: Task, id: string) {
    || UsesGroup(task.draft.steps, id)
    || (task.versions != [] && UsesGroup(task.versions[|task.versions| - 1], id))
  }

  predicate Unreferenced(tasks: seq<Task>, id: string) {
    forall k :: 0 <= k < |tasks| ==> !References(tasks[k], id)
  }

  /** The workflow with every group-sourced send given the group's messages as its own. */
  function Substituted(messages: map<string, seq<string>>, steps: seq<Step>): seq<Step>
    decreases steps, 0
  {
    if steps == [] then [] else [SubstitutedStep(messages, steps[0])] + Substituted(messages, steps[1..])
  }

  function SubstitutedStep(messages: map<string, seq<string>>, step: Step): Step
    decreases step, 1
  {
    match step
    case Send(id, Group(group)) => if group in messages then Send(id, Manual(messages[group])) else step
    case Condition(id, version2, strict, extracts, branches) =>
      Condition(id, version2, strict, extracts, SubstitutedBranches(messages, branches))
    case _ => step
  }

  function SubstitutedBranches(messages: map<string, seq<string>>, branches: seq<Branch>): seq<Branch>
    decreases branches, 0
  {
    if branches == [] then []
    else
      [Branch(branches[0].kind, branches[0].all, branches[0].rules, Substituted(messages, branches[0].steps))]
      + SubstitutedBranches(messages, branches[1..])
  }

  predicate Live(groups: map<string, GroupRow>, id: string) { id in groups && groups[id].messages != [] }

  function MessagesOf(groups: map<string, GroupRow>, ids: set<string>): map<string, seq<string>> {
    map id | id in ids && id in groups :: groups[id].messages
  }

  /** Every group exists and has messages, and the workflow stays acceptable with them filled in. */
  predicate GroupsValid(g: Grammar, groups: map<string, GroupRow>, steps: seq<Step>) {
    && (forall id :: id in GroupIds(steps) ==> Live(groups, id))
    && (GroupIds(steps) != {} ==> Checker.Accepts(g, Substituted(MessagesOf(groups, GroupIds(steps)), steps)))
  }

  // ----- groups -----

  predicate NameFree(groups: map<string, GroupRow>, name: string, except: string) {
    forall id :: id in groups && id != except ==> groups[id].name != name
  }

  function CreateGroup(lib: Library, id: string, name: string, messages: seq<string>): (Option<Error>, Library) {
    if id in lib.issued || !NameFree(lib.groups, name, id) then (Some(GroupConflict), lib)
    else (None, lib.(groups := lib.groups[id := GroupRow(name, messages, 1)], issued := lib.issued + {id}))
  }

  function UpdateGroup(lib: Library, id: string, name: string, messages: seq<string>, revision: nat)
    : (Option<Error>, Library)
  {
    if id !in lib.groups then (Some(GroupNotFound), lib)
    else if messages == [] && !Unreferenced(lib.tasks, id) then (Some(GroupConflict), lib)
    else if lib.groups[id].revision != revision || !NameFree(lib.groups, name, id) then (Some(GroupConflict), lib)
    else (None, lib.(groups := lib.groups[id := GroupRow(name, messages, revision + 1)]))
  }

  function DeleteGroup(lib: Library, id: string, revision: nat): (Option<Error>, Library) {
    if id !in lib.groups then (Some(GroupNotFound), lib)
    else if !Unreferenced(lib.tasks, id) || lib.groups[id].revision != revision then (Some(GroupConflict), lib)
    else (None, lib.(groups := lib.groups - {id}))
  }

  // ----- tasks -----

  function IndexById(tasks: seq<Task>, id: string): (r: nat)
    ensures r <= |tasks|
    ensures r < |tasks| ==> tasks[r].id == id
    ensures r == |tasks| ==> forall k :: 0 <= k < |tasks| ==> tasks[k].id != id
  {
    if tasks == [] || tasks[0].id == id then 0 else 1 + IndexById(tasks[1..], id)
  }

  function IndexByName(tasks: seq<Task>, name: string): (r: nat)
    ensures r <= |tasks|
    ensures r < |tasks| ==> tasks[r].draft.name == name
    ensures r == |tasks| ==> forall k :: 0 <= k < |tasks| ==> tasks[k].draft.name != name
  {
    if tasks == [] || tasks[0].draft.name == name then 0 else 1 + IndexByName(tasks[1..], name)
  }

  /** The task with this id or, failing that, with this name; the number of tasks if there is none. */
  function Find(tasks: seq<Task>, ref: string): (r: nat)
    ensures r <= |tasks|
  {
    if IndexById(tasks, ref) < |tasks| then IndexById(tasks, ref) else IndexByName(tasks, ref)
  }

  function CreateTask(g: Grammar, lib: Library, id: string, d: Definition): (Option<Error>, Library) {
    if Find(lib.tasks, d.name) < |lib.tasks| then (Some(NameTaken), lib)
    else if d.account !in lib.accounts then (Some(UnknownAccount), lib)
    else if !GroupsValid(g, lib.groups, d.steps) then (Some(BadState), lib)
    else if IndexById(lib.tasks, id) < |lib.tasks| then (Some(Integrity), lib)
    else (None, lib.(tasks := lib.tasks + [Task(id, d, false, false, [])]))
  }

  function EditTask(g: Grammar, lib: Library, ref: string, d: Definition): (Option<Error>, Library) {
    var k, other := Find(lib.tasks, ref), Find(lib.tasks, d.name);
    if k == |lib.tasks| then (Some(UnknownTask), lib)
    else if lib.tasks[k].archived then (Some(BadState), lib)
    else if other < |lib.tasks| && lib.tasks[other].id != lib.tasks[k].id then (Some(NameTaken), lib)
    else if d.account !in lib.accounts then (Some(UnknownAccount), lib)
    else if !GroupsValid(g, lib.groups, d.steps) then (Some(BadState), lib)
    else if exists j :: 0 <= j < |lib.tasks| && j != k && lib.tasks[j].draft.name == d.name then (Some(Integrity), lib)
    else (None, lib.(tasks := lib.tasks[k := lib.tasks[k].(draft := d)]))
  }

  /** `schedulable` tells whether the schedule has a future run. */
  function PublishTask(g: Grammar, lib: Library, ref: string, schedulable: bool): (Option<Error>, Library) {
    var k := Find(lib.tasks, ref);
    if k == |lib.tasks| then (Some(UnknownTask), lib)
    else
      var task := lib.tasks[k];
      if task.archived || !Checker.Accepts(g, task.draft.steps) || !GroupsValid(g, lib.groups, task.draft.steps)
         || (task.enabled && !schedulable) then
        (Some(BadState), lib)
      else (None, lib.(tasks := lib.tasks[k := task.(versions := task.versions + [task.draft.steps])]))
  }

  function SwitchTask(lib: Library, ref: string, archived: bool): (Option<Error>, Library) {
    var k := Find(lib.tasks, ref);
    if k == |lib.tasks| then (Some(UnknownTask), lib)
    else (None, lib.(tasks := lib.tasks[k := lib.tasks[k].(archived := archived, enabled := false)]))
  }

  function EnableTask(lib: Library, ref: string, schedulable: bool): (Option<Error>, Library) {
    var k := Find(lib.tasks, ref);
    if k == |lib.tasks| then (Some(UnknownTask), lib)
    else if lib.tasks[k].archived || lib.tasks[k].versions == [] || !schedulable then (Some(BadState), lib)
    else (None, lib.(tasks := lib.tasks[k := lib.tasks[k].(enabled := true)]))
  }

  function DisableTask(lib: Library, ref: string): (Option<Error>, Library) {
    var k := Find(lib.tasks, ref);
    if k == |lib.tasks| then (Some(UnknownTask), lib)
    else (None, lib.(tasks := lib.tasks[k := lib.tasks[k].(enabled := false)]))
  }

  // ----- runs of operations -----

  datatype Operation =
    | NewGroup(id: string, name: string, messages: seq<string>)
    | ChangeGroup(id: string, name: string, messages: seq<string>, revision: nat)
    | DropGroup(id: string, revision: nat)
    | NewTask(id: string, definition: Definition)
    | Edit(ref: string, definition: Definition)
    | Publish(ref: string, schedulable: bool)
    | Archive(ref: string)
    | Restore(ref: string)
    | Enable(ref: string, schedulable: bool)
    | Disable(ref: string)

  /** A definition handed to the service has passed the static checks. */
  predicate Permitted(g: Grammar, op: Operation) {
    op.NewTask? || op.Edit? ==> Checker.Accepts(g, op.definition.steps)
  }

  function Apply(g: Grammar, lib: Library, op: Operation): (Option<Error>, Library) {
    match op
    case NewGroup(id, name, messages) => CreateGroup(lib, id, name, messages)
    case ChangeGroup(id, name, messages, revision) => UpdateGroup(lib, id, name, messages, revision)
    case DropGroup(id, revision) => DeleteGroup(lib, id, revision)
    case NewTask(id, d) => CreateTask(g, lib, id, d)
    case Edit(ref, d) => EditTask(g, lib, ref, d)
    case Publish(ref, schedulable) => PublishTask(g, lib, ref, schedulable)
    case Archive(ref) => SwitchTask(lib, ref, true)
    case Restore(ref) => SwitchTask(lib, ref, false)
    case Enable(ref, schedulable) => EnableTask(lib, ref, schedulable)
    case Disable(ref) => DisableTask(lib, ref)
  }

  function RunAll(g: Grammar, lib: Library, ops: seq<Operation>): Library
    decreases |ops|
  {
    if ops == [] then lib else RunAll(g, Apply(g, lib, ops[0]).1, ops[1..])
  }

  /** Every group that the steps name, at any depth, exists and has messages. */
  ghost predicate AllLive(groups: map<string, GroupRow>, steps: seq<Step>) {
    forall id :: id in GroupIds(steps) ==> Live(groups, id)
  }

  ghost predicate TaskIntact(g: Grammar, groups: map<string, GroupRow>, task: Task) {
    && AllLive(groups, task.draft.steps) && Checker.Accepts(g, task.draft.steps)
    && (task.versions != [] ==>
          && AllLive(groups, task.versions[|task.versions| - 1])
          && Checker.Accepts(g, task.versions[|task.versions| - 1]))
    && (task.enabled ==> !task.archived && task.versions != [])
  }

  ghost predicate Intact(g: Grammar, lib: Library) {
    && (forall k :: 0 <= k < |lib.tasks| ==> TaskIntact(g, lib.groups, lib.tasks[k]))
    && (forall j, k :: 0 <= j < k < |lib.tasks| ==>
          lib.tasks[j].id != lib.tasks[k].id && lib.tasks[j].draft.name != lib.tasks[k].draft.name)
    && lib.groups.Keys <= lib.issued
  }

  lemma UnreferencedIsUnused(g: Grammar, lib: Library, id: string, k: nat)
    requires Unreferenced(lib.tasks, id) && k < |lib.tasks|
    ensures var task := lib.tasks[k];
            && id !in GroupIds(task.draft.steps)
            && (task.versions != [] ==> id !in GroupIds(task.versions[|task.versions| - 1]))
  {
    var task := lib.tasks[k];
    assert !References(task, id);
    WalkFindsEveryDepth(task.draft.steps, id);
    if task.versions != [] {
      WalkFindsEveryDepth(task.versions[|task.versions| - 1], id);
    }
  }

  lemma GroupWritesKeepIntact(g: Grammar, lib: Library, op: Operation)
    requires Intact(g, lib) && (op.NewGroup? || op.ChangeGroup? || op.DropGroup?)
    ensures Intact(g, Apply(g, lib, op).1)
  {
    var lib' := Apply(g, lib, op).1;
    forall k | 0 <= k < |lib'.tasks|
      ensures TaskIntact(g, lib'.groups, lib'.tasks[k])
    {
      assert TaskIntact(g, lib.groups, lib.tasks[k]);
      if Unreferenced(lib.tasks, op.id) {
        UnreferencedIsUnused(g, lib, op.id, k);
      }
    }
  }

  /** Writing back one task keeps the library intact if the new row is and its name is not taken. */
  lemma ReplacingKeepsIntact(g: Grammar, lib: Library, k: nat, task: Task)
    requires Intact(g, lib) && k < |lib.tasks| && TaskIntact(g, lib.groups, task) && task.id == lib.tasks[k].id
    requires forall j :: 0 <= j < |lib.tasks| && j != k ==> lib.tasks[j].draft.name != task.draft.name
    ensures Intact(g, lib.(tasks := lib.tasks[k := task]))
  {
    var tasks := lib.tasks[k := task];
    forall j | 0 <= j < |tasks|
      ensures TaskIntact(g, lib.groups, tasks[j])
    {
      assert j != k ==> tasks[j] == lib.tasks[j];
    }
    forall i, j | 0 <= i < j < |tasks|
      ensures tasks[i].id != tasks[j].id && tasks[i].draft.name != tasks[j].draft.name
    {
      assert lib.tasks[i].id != lib.tasks[j].id && lib.tasks[i].draft.name != lib.tasks[j].draft.name;
    }
  }

  lemma TaskWritesKeepIntact(g: Grammar, lib: Library, op: Operation)
    requires Intact(g, lib) && Permitted(g, op)
    requires op.Edit? || op.Publish? || op.Archive? || op.Restore? || op.Enable? || op.Disable?
    ensures Intact(g, Apply(g, lib, op).1)
  {
    hide Checker.Accepts, GroupIds, Find;
    var k := Find(lib.tasks, op.ref);
    var (r, lib') := Apply(g, lib, op);
    if r == None {
      assert TaskIntact(g, lib.groups, lib.tasks[k]);
      ReplacingKeepsIntact(g, lib, k, lib'.tasks[k]);
    }
  }

  lemma OneOperationKeepsIntact(g: Grammar, lib: Library, op: Operation)
    requires Intact(g, lib) && Permitted(g, op)
    ensures Intact(g, Apply(g, lib, op).1)
  {
    hide Intact, Checker.Accepts;
    if op.NewGroup? || op.ChangeGroup? || op.DropGroup? {
      GroupWritesKeepIntact(g, lib, op);
    } else if op.NewTask? {
      NewTaskKeepsIntact(g, lib, op);
    } else {
      TaskWritesKeepIntact(g, lib, op);
    }
  }

  lemma NewTaskKeepsIntact(g: Grammar, lib: Library, op: Operation)
    requires Intact(g, lib) && Permitted(g, op) && op.NewTask?
    ensures Intact(g, Apply(g, lib, op).1)
  {
    hide Checker.Accepts, GroupIds;
  }

  /**
   * Group integrity: after any sequence of group and task operations, successful or refused, every
   * group-sourced send at any depth in every draft and every latest version names a group that
   * exists and has messages.
   */
  lemma {:induction false} GroupsStayIntact(g: Grammar, lib: Library, ops: seq<Operation>)
    requires Intact(g, lib) && forall k :: 0 <= k < |ops| ==> Permitted(g, ops[k])
    ensures Intact(g, RunAll(g, lib, ops))
    decreases |ops|
  {
    hide Intact, Apply, Permitted;
    if ops != [] {
      OneOperationKeepsIntact(g, lib, ops[0]);
      GroupsStayIntact(g, Apply(g, lib, ops[0]).1, ops[1..]);
    }
  }

  /** A group-sourced send of the latest version always has a message to choose, if groups are read from the library. */
  lemma SendsHaveCandidates(g: Grammar, lib: Library, w: Interpreter.World, k: nat, step: Step, st: Interpreter.State)
    requires Intact(g, lib) && k < |lib.tasks| && lib.tasks[k].versions != []
    requires FromGroup(step) && step in Flatten(lib.tasks[k].versions[|lib.tasks[k].versions| - 1])
    requires forall n, id :: w.groupMessages(n, id) == if Live(lib.groups, id) then Some(lib.groups[id].messages) else None
    ensures var id := step.message.groupId;
            && Live(lib.groups, id)
            && exists text :: text in lib.groups[id].messages
                              && Interpreter.RunSend(w, step, st) == Interpreter.DoSend(w, text, st)
  {
    var task, id := lib.tasks[k], step.message.groupId;
    assert TaskIntact(g, lib.groups, task);
    WalkFindsEveryDepth(task.versions[|task.versions| - 1], id);
    assert Live(lib.groups, id);
    var text := Interpreter.Choice(w, lib.groups[id].messages, st);
    assert text in lib.groups[id].messages;
    assert Interpreter.RunSend(w, step, st) == Interpreter.DoSend(w, text, st);
  }

  // ----- revisions -----

  /** A group whose revision has not moved has not been touched. */
  ghost predicate Tracks(lib: Library, lib': Library, id: string) {
    id in lib'.groups ==>
      && id in lib.groups && lib.groups[id].revision <= lib'.groups[id].revision
      && (lib.groups[id].revision == lib'.groups[id].revision ==> lib'.groups[id] == lib.groups[id])
  }

  lemma OneWriteTracks(g: Grammar, lib: Library, op: Operation, id: string)
    requires id in lib.issued
    ensures var lib' := Apply(g, lib, op).1; id in lib'.issued && Tracks(lib, lib', id)
  {
    if op.NewGroup? || op.ChangeGroup? || op.DropGroup? {
    } else {
      assert Apply(g, lib, op).1.groups == lib.groups;
    }
  }

  lemma {:induction false} RevisionsTrackWrites(g: Grammar, lib: Library, ops: seq<Operation>, id: string)
    requires id in lib.issued
    ensures Tracks(lib, RunAll(g, lib, ops), id)
    decreases |ops|
  {
    if ops != [] {
      var lib' := Apply(g, lib, ops[0]).1;
      OneWriteTracks(g, lib, ops[0], id);
      RevisionsTrackWrites(g, lib', ops[1..], id);
    }
  }

  /**
   * No lost updates: whatever happens between reading a group and writing it back with the revision
   * that was read, the write goes through only if nobody changed or deleted the group in between.
   */
  lemma StaleWritesAreRefused(g: Grammar, lib: Library, ops: seq<Operation>, op: Operation)
    requires op.ChangeGroup? || op.DropGroup?
    requires op.id in lib.groups && op.id in lib.issued && op.revision == lib.groups[op.id].revision
    requires Apply(g, RunAll(g, lib, ops), op).0 == None
    ensures op.id in RunAll(g, lib, ops).groups && RunAll(g, lib, ops).groups[op.id] == lib.groups[op.id]
  {
    RevisionsTrackWrites(g, lib, ops, op.id);
  }
}
