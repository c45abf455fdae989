/**
 * What the operations of the message library come to, without reference to how they are carried out:
 * when each is accepted, and what a task or a group is after any sequence of them.
 */
module LibraryHistory {
  import opened Wrappers
  import opened Workflow
  import opened MessageGroups
  import WellFormed
  import Acceptance

  // ----- when an operation is accepted -----

  /** The task that a text refers to: by its id, or by its name if no task has that id. */
  ghost predicate Denotes(tasks: seq<Task>, ref: string, k: nat)
    requires k < |tasks|
  {
    tasks[k].id == ref || (tasks[k].draft.name == ref && forall j :: 0 <= j < |tasks| ==> tasks[j].id != ref)
  }

  ghost predicate Exists(tasks: seq<Task>, ref: string) {
    exists k: nat :: k < |tasks| && Denotes(tasks, ref, k)
  }

  /** A draft or a latest version names the group. */
  ghost predicate InUse(tasks: seq<Task>, id: string) {
    exists k :: 0 <= k < |tasks|
      && (|| id in GroupIds(tasks[k].draft.steps)
          || (tasks[k].versions != [] && id in GroupIds(tasks[k].versions[|tasks[k].versions| - 1])))
  }

  /** All groups named have messages, and the workflow with the messages in their places is well formed. */
  ghost predicate Usable(g: Grammar, groups: map<string, GroupRow>, steps: seq<Step>) {
    && AllLive(groups, steps)
    && (GroupIds(steps) != {} ==>
          WellFormed.WellFormedWorkflow(g, Substituted(MessagesOf(groups, GroupIds(steps)), steps)))
  }

  /** No task but the one at `k` has this text as its id or name. */
  ghost predicate Unclaimed(tasks: seq<Task>, text: string, k: nat) {
    forall j :: 0 <= j < |tasks| && j != k ==> tasks[j].id != text && tasks[j].draft.name != text
  }

  ghost predicate GroupNameFree(groups: map<string, GroupRow>, name: string, id: string) {
    forall other :: other in groups && groups[other].name == name ==> other == id
  }

  ghost predicate Admissible(g: Grammar, lib: Library, op: Operation) {
    match op
    case NewGroup(id, name, _) => id !in lib.issued && GroupNameFree(lib.groups, name, id)
    case ChangeGroup(id, name, messages, revision) =>
      && id in lib.groups && lib.groups[id].revision == revision && GroupNameFree(lib.groups, name, id)
      && (messages == [] ==> !InUse(lib.tasks, id))
    case DropGroup(id, revision) => id in lib.groups && lib.groups[id].revision == revision && !InUse(lib.tasks, id)
    case NewTask(id, d) =>
      && Unclaimed(lib.tasks, d.name, |lib.tasks|) && (forall k :: 0 <= k < |lib.tasks| ==> lib.tasks[k].id != id)
      && d.account in lib.accounts && Usable(g, lib.groups, d.steps)
    case Edit(ref, d) =>
      && d.account in lib.accounts && Usable(g, lib.groups, d.steps)
      && exists k: nat :: k < |lib.tasks| && Denotes(lib.tasks, ref, k) && !lib.tasks[k].archived
                          && Unclaimed(lib.tasks, d.name, k)
    case Publish(ref, schedulable) =>
      exists k: nat :: k < |lib.tasks| && Denotes(lib.tasks, ref, k) && !lib.tasks[k].archived
                       && WellFormed.WellFormedWorkflow(g, lib.tasks[k].draft.steps)
                       && Usable(g, lib.groups, lib.tasks[k].draft.steps) && (lib.tasks[k].enabled ==> schedulable)
    case Enable(ref, schedulable) =>
      && schedulable
      && exists k: nat :: k < |lib.tasks| && Denotes(lib.tasks, ref, k) && !lib.tasks[k].archived
                          && lib.tasks[k].versions != []
    case Archive(ref) => Exists(lib.tasks, ref)
    case Restore(ref) => Exists(lib.tasks, ref)
    case Disable(ref) => Exists(lib.tasks, ref)
  }

  lemma FindDenotes(g: Grammar, lib: Library, ref: string, k: nat)
    requires Intact(g, lib) && k < |lib.tasks|
    ensures Find(lib.tasks, ref) == k <==> Denotes(lib.tasks, ref, k)
  {
  }

  lemma FoundIsDenoted(g: Grammar, lib: Library, ref: string)
    requires Intact(g, lib)
    ensures Find(lib.tasks, ref) < |lib.tasks| ==> Denotes(lib.tasks, ref, Find(lib.tasks, ref))
    ensures forall k: nat :: k < |lib.tasks| && Denotes(lib.tasks, ref, k) ==> Find(lib.tasks, ref) == k
  {
    if Find(lib.tasks, ref) < |lib.tasks| {
      FindDenotes(g, lib, ref, Find(lib.tasks, ref));
    }
    forall k: nat | k < |lib.tasks| && Denotes(lib.tasks, ref, k)
      ensures Find(lib.tasks, ref) == k
    {
      FindDenotes(g, lib, ref, k);
    }
  }

  lemma UsableIsValid(g: Grammar, groups: map<string, GroupRow>, steps: seq<Step>)
    ensures GroupsValid(g, groups, steps) <==> Usable(g, groups, steps)
  {
    hide WellFormed.WellFormedWorkflow, Checker.Accepts, Substituted, GroupIds, MessagesOf;
    Acceptance.AcceptedIsWellFormed(g, Substituted(MessagesOf(groups, GroupIds(steps)), steps));
  }

  lemma UnreferencedIsNotInUse(tasks: seq<Task>, id: string)
    ensures Unreferenced(tasks, id) <==> !InUse(tasks, id)
  {
    forall k | 0 <= k < |tasks|
      ensures References(tasks[k], id)
              <==> || id in GroupIds(tasks[k].draft.steps)
                   || (tasks[k].versions != [] && id in GroupIds(tasks[k].versions[|tasks[k].versions| - 1]))
    {
      WalkFindsEveryDepth(tasks[k].draft.steps, id);
      if tasks[k].versions != [] {
        WalkFindsEveryDepth(tasks[k].versions[|tasks[k].versions| - 1], id);
      }
    }
  }

  lemma GroupWriteIsAdmitted(g: Grammar, lib: Library, op: Operation)
    requires Intact(g, lib) && (op.NewGroup? || op.ChangeGroup? || op.DropGroup?)
    ensures Apply(g, lib, op).0 == None <==> Admissible(g, lib, op)
  {
    UnreferencedIsNotInUse(lib.tasks, op.id);
  }

  lemma DefinitionIsAdmitted(g: Grammar, lib: Library, op: Operation)
    requires Intact(g, lib) && (op.NewTask? || op.Edit?)
    ensures Apply(g, lib, op).0 == None <==> Admissible(g, lib, op)
  {
    hide GroupsValid, Usable;
    UsableIsValid(g, lib.groups, op.definition.steps);
    FoundIsDenoted(g, lib, op.definition.name);
    if op.Edit? {
      FoundIsDenoted(g, lib, op.ref);
    }
  }

  lemma PublicationIsAdmitted(g: Grammar, lib: Library, op: Operation)
    requires Intact(g, lib) && op.Publish?
    ensures Apply(g, lib, op).0 == None <==> Admissible(g, lib, op)
  {
    hide GroupsValid, Usable, WellFormed.WellFormedWorkflow, Checker.Accepts;
    FoundIsDenoted(g, lib, op.ref);
    var k := Find(lib.tasks, op.ref);
    if k < |lib.tasks| {
      UsableIsValid(g, lib.groups, lib.tasks[k].draft.steps);
      Acceptance.AcceptedIsWellFormed(g, lib.tasks[k].draft.steps);
    }
  }

  /** An operation is accepted if and only if it is admissible; a refused one changes nothing. */
  lemma AcceptedExactly(g: Grammar, lib: Library, op: Operation)
    requires Intact(g, lib)
    ensures Apply(g, lib, op).0 == None <==> Admissible(g, lib, op)
    ensures Apply(g, lib, op).0 != None ==> Apply(g, lib, op).1 == lib
  {
    if op.NewGroup? || op.ChangeGroup? || op.DropGroup? {
      GroupWriteIsAdmitted(g, lib, op);
    } else if op.NewTask? || op.Edit? {
      DefinitionIsAdmitted(g, lib, op);
    } else if op.Publish? {
      PublicationIsAdmitted(g, lib, op);
    } else {
      FoundIsDenoted(g, lib, op.ref);
    }
  }

  // ----- what operations leave behind -----

  /** The operation is about the task at `k`. */
  ghost predicate About(tasks: seq<Task>, op: Operation, k: nat)
    requires k < |tasks|
  {
    match op
    case NewGroup(_, _, _) => false
    case ChangeGroup(_, _, _, _) => false
    case DropGroup(_, _) => false
    case NewTask(_, _) => false
    case _ => Denotes(tasks, op.ref, k)
  }

  /** What an accepted operation does to the task that it is about. */
  function Effect(task: Task, op: Operation): Task {
    match op
    case Edit(_, d) => Task(task.id, d, task.archived, task.enabled, task.versions)
    case Publish(_, _) => Task(task.id, task.draft, task.archived, task.enabled, task.versions + [task.draft.steps])
    case Archive(_) => Task(task.id, task.draft, true, false, task.versions)
    case Restore(_) => Task(task.id, task.draft, false, false, task.versions)
    case Enable(_, _) => Task(task.id, task.draft, task.archived, true, task.versions)
    case Disable(_) => Task(task.id, task.draft, task.archived, false, task.versions)
    case _ => task
  }

  /** What an accepted operation does to the group with this id. */
  function GroupEffect(row: Option<GroupRow>, op: Operation, id: string): Option<GroupRow> {
    match op
    case NewGroup(i, name, messages) => if i == id then Some(GroupRow(name, messages, 1)) else row
    case ChangeGroup(i, name, messages, revision) =>
      if i == id then Some(GroupRow(name, messages, revision + 1)) else row
    case DropGroup(i, _) => if i == id then None else row
    case _ => row
  }

  /** A task after the admissible ones among some operations that are about it, in order. */
  ghost function TaskHistory(g: Grammar, lib: Library, ops: seq<Operation>, k: nat, task: Task): Task
    requires k < |lib.tasks|
    decreases |ops|
  {
    if ops == [] then task
    else
      var lib' := Apply(g, lib, ops[0]).1;
      var task' := if Admissible(g, lib, ops[0]) && About(lib.tasks, ops[0], k) then Effect(task, ops[0]) else task;
      if k < |lib'.tasks| then TaskHistory(g, lib', ops[1..], k, task') else task'
  }

  ghost function GroupHistory(g: Grammar, lib: Library, ops: seq<Operation>, id: string, row: Option<GroupRow>)
    : Option<GroupRow>
    decreases |ops|
  {
    if ops == [] then row
    else
      var row' := if Admissible(g, lib, ops[0]) then GroupEffect(row, ops[0], id) else row;
      GroupHistory(g, Apply(g, lib, ops[0]).1, ops[1..], id, row')
  }

  function RowOf(groups: map<string, GroupRow>, id: string): Option<GroupRow> {
    if id in groups then Some(groups[id]) else None
  }

  lemma OneOperationOnATask(g: Grammar, lib: Library, op: Operation, k: nat)
    requires Intact(g, lib) && k < |lib.tasks|
    ensures var lib' := Apply(g, lib, op).1;
            && |lib.tasks| <= |lib'.tasks|
            && lib'.tasks[k] == if Admissible(g, lib, op) && About(lib.tasks, op, k) then Effect(lib.tasks[k], op)
                                else lib.tasks[k]
  {
    hide Admissible, Intact, GroupsValid, Checker.Accepts;
    AcceptedExactly(g, lib, op);
    if op.NewGroup? || op.ChangeGroup? || op.DropGroup? || op.NewTask? {
    } else {
      FindDenotes(g, lib, op.ref, k);
    }
  }

  lemma OneOperationOnAGroup(g: Grammar, lib: Library, op: Operation, id: string)
    requires Intact(g, lib)
    ensures RowOf(Apply(g, lib, op).1.groups, id)
            == if Admissible(g, lib, op) then GroupEffect(RowOf(lib.groups, id), op, id) else RowOf(lib.groups, id)
  {
    hide Admissible, Intact, GroupsValid, Checker.Accepts;
    AcceptedExactly(g, lib, op);
  }

  /** A new task is the last one, with the definition given as its draft, neither published nor enabled. */
  lemma NewTaskIsADraft(g: Grammar, lib: Library, op: Operation)
    requires Intact(g, lib) && op.NewTask? && Admissible(g, lib, op)
    ensures Apply(g, lib, op).1.tasks == lib.tasks + [Task(op.id, op.definition, false, false, [])]
  {
    hide Admissible, Intact, GroupsValid, Checker.Accepts;
    AcceptedExactly(g, lib, op);
  }

  /** An operation does what it says: accepted if and only if admissible, with its effect and no other. */
  ghost predicate Settles(g: Grammar, lib: Library, op: Operation, error: Option<Error>, lib': Library) {
    Intact(g, lib) ==>
      && (error == None <==> Admissible(g, lib, op))
      && (error != None ==> lib' == lib)
      && |lib.tasks| <= |lib'.tasks|
      && (forall k: nat :: k < |lib.tasks| ==>
            lib'.tasks[k] == if error == None && About(lib.tasks, op, k) then Effect(lib.tasks[k], op) else lib.tasks[k])
      && lib'.tasks[|lib.tasks|..]
         == (if error == None && op.NewTask? then [Task(op.id, op.definition, false, false, [])] else [])
      && (forall id :: RowOf(lib'.groups, id)
                       == if error == None then GroupEffect(RowOf(lib.groups, id), op, id) else RowOf(lib.groups, id))
  }

  lemma OperationsSettle(g: Grammar, lib: Library, op: Operation)
    ensures Settles(g, lib, op, Apply(g, lib, op).0, Apply(g, lib, op).1)
  {
    hide Admissible, Intact, About, Effect, GroupEffect, RowOf, GroupsValid, Checker.Accepts;
    if Intact(g, lib) {
      AcceptedExactly(g, lib, op);
      forall k: nat | k < |lib.tasks|
        ensures |lib.tasks| <= |Apply(g, lib, op).1.tasks|
        ensures Apply(g, lib, op).1.tasks[k]
                == if Admissible(g, lib, op) && About(lib.tasks, op, k) then Effect(lib.tasks[k], op) else lib.tasks[k]
      {
        OneOperationOnATask(g, lib, op, k);
      }
      forall id
        ensures RowOf(Apply(g, lib, op).1.groups, id)
                == if Admissible(g, lib, op) then GroupEffect(RowOf(lib.groups, id), op, id) else RowOf(lib.groups, id)
      {
        OneOperationOnAGroup(g, lib, op, id);
      }
      if op.NewTask? && Admissible(g, lib, op) {
        NewTaskIsADraft(g, lib, op);
      }
    }
  }

  /**
   * After any operations a task is what the admissible ones about it made of it, in order: its draft is
   * the last definition written, its versions are the drafts that were published, each as it was then,
   * and nothing else has touched it.
   */
  lemma {:induction false} TasksFollowTheirHistory(g: Grammar, lib: Library, ops: seq<Operation>, k: nat)
    requires Intact(g, lib) && k < |lib.tasks| && forall j :: 0 <= j < |ops| ==> Permitted(g, ops[j])
    ensures k < |RunAll(g, lib, ops).tasks|
    ensures RunAll(g, lib, ops).tasks[k] == TaskHistory(g, lib, ops, k, lib.tasks[k])
    decreases |ops|
  {
    hide Intact, Apply, Permitted, Admissible, About, Effect;
    if ops != [] {
      OneOperationKeepsIntact(g, lib, ops[0]);
      OneOperationOnATask(g, lib, ops[0], k);
      TasksFollowTheirHistory(g, Apply(g, lib, ops[0]).1, ops[1..], k);
    }
  }

  /** After any operations a group is what the last admissible write of it said, at its revision. */
  lemma {:induction false} GroupsFollowTheirHistory(g: Grammar, lib: Library, ops: seq<Operation>, id: string)
    requires Intact(g, lib) && forall j :: 0 <= j < |ops| ==> Permitted(g, ops[j])
    ensures RowOf(RunAll(g, lib, ops).groups, id) == GroupHistory(g, lib, ops, id, RowOf(lib.groups, id))
    decreases |ops|
  {
    hide Intact, Apply, Permitted, Admissible, GroupEffect, RowOf;
    if ops != [] {
      OneOperationKeepsIntact(g, lib, ops[0]);
      OneOperationOnAGroup(g, lib, ops[0], id);
      GroupsFollowTheirHistory(g, Apply(g, lib, ops[0]).1, ops[1..], id);
    }
  }
}
