/** The services that write message groups and tasks, proved against the operations of `MessageGroups`. */
module MessageLibrary {
  import opened Wrappers
  import opened Workflow
  import opened MessageGroups
  import opened LibraryHistory
  import Checker

  class LibraryService {
    const grammar: Grammar
    var groups: map<string, GroupRow>
    var issued: set<string>
    var tasks: seq<Task>
    var accounts: set<string>

    constructor (g: Grammar, accounts: set<string>)
      ensures grammar == g && Contents() == Library(map[], {}, [], accounts)
      ensures Intact(g, Contents())
    {
      grammar := g;
      groups, issued, tasks := map[], {}, [];
      this.accounts := accounts;
    }

    ghost function Contents(): Library
      reads this
    {
      Library(groups, issued, tasks, accounts)
    }

    /** Whatever an operation answers, it does not break a reference, and does what it says. */
    lemma KeepsIntact(op: Operation)
      requires Permitted(grammar, op)
      ensures Intact(grammar, Contents()) ==> Intact(grammar, Apply(grammar, Contents(), op).1)
      ensures Settles(grammar, Contents(), op, Apply(grammar, Contents(), op).0, Apply(grammar, Contents(), op).1)
    {
      OperationsSettle(grammar, Contents(), op);
      if Intact(grammar, Contents()) {
        OneOperationKeepsIntact(grammar, Contents(), op);
      }
    }

    static method Uses(steps: seq<Step>, id: string) returns (found: bool)
      ensures found == UsesGroup(steps, id)
    {
      var walk, i := Flatten(steps), 0;
      while i < |walk|
        invariant 0 <= i <= |walk|
        invariant forall k :: 0 <= k < i ==> !(FromGroup(walk[k]) && walk[k].message.groupId == id)
      {
        if FromGroup(walk[i]) && walk[i].message.groupId == id {
          return true;
        }
        i := i + 1;
      }
      return false;
    }

    method IsUnreferenced(id: string) returns (free: bool)
      ensures free == Unreferenced(tasks, id)
    {
      var i := 0;
      while i < |tasks|
        invariant 0 <= i <= |tasks|
        invariant forall k :: 0 <= k < i ==> !References(tasks[k], id)
      {
        var used := Uses(tasks[i].draft.steps, id);
        if !used && tasks[i].versions != [] {
          used := Uses(tasks[i].versions[|tasks[i].versions| - 1], id);
        }
        if used {
          assert References(tasks[i], id);
          return false;
        }
        i := i + 1;
      }
      return true;
    }

    method GetMessages(id: string) returns (r: Result<seq<string>, Error>)
      ensures r.Ok? <==> Live(groups, id)
      ensures r.Ok? ==> r.value == groups[id].messages
      ensures r.Err? ==> r.error == if id in groups then GroupConflict else GroupNotFound
    {
      if id !in groups {
        return Err(GroupNotFound);
      }
      if groups[id].messages == [] {
        return Err(GroupConflict);
      }
      return Ok(groups[id].messages);
    }

    method CreateGroup(id: string, name: string, messages: seq<string>) returns (error: Option<Error>)
      modifies this
      ensures (error, Contents()) == MessageGroups.CreateGroup(old(Contents()), id, name, messages)
      ensures Settles(grammar, old(Contents()), NewGroup(id, name, messages), error, Contents())
      ensures Intact(grammar, old(Contents())) ==> Intact(grammar, Contents())
    {
      hide Settles, Intact;
      KeepsIntact(NewGroup(id, name, messages));
      if id in issued || !NameFree(groups, name, id) {
        return Some(GroupConflict);
      }
      groups, issued := groups[id := GroupRow(name, messages, 1)], issued + {id};
      return None;
    }

    method UpdateGroup(id: string, name: string, messages: seq<string>, revision: nat) returns (error: Option<Error>)
      modifies this
      ensures (error, Contents()) == MessageGroups.UpdateGroup(old(Contents()), id, name, messages, revision)
      ensures Settles(grammar, old(Contents()), ChangeGroup(id, name, messages, revision), error, Contents())
      ensures Intact(grammar, old(Contents())) ==> Intact(grammar, Contents())
    {
      hide Settles, Intact;
      KeepsIntact(ChangeGroup(id, name, messages, revision));
      if id !in groups {
        return Some(GroupNotFound);
      }
      if messages == [] {
        var free := IsUnreferenced(id);
        if !free {
          return Some(GroupConflict);
        }
      }
      if groups[id].revision != revision || !NameFree(groups, name, id) {
        return Some(GroupConflict);
      }
      groups := groups[id := GroupRow(name, messages, revision + 1)];
      return None;
    }

    method DeleteGroup(id: string, revision: nat) returns (error: Option<Error>)
      modifies this
      ensures (error, Contents()) == MessageGroups.DeleteGroup(old(Contents()), id, revision)
      ensures Settles(grammar, old(Contents()), DropGroup(id, revision), error, Contents())
      ensures Intact(grammar, old(Contents())) ==> Intact(grammar, Contents())
    {
      hide Settles, Intact;
      KeepsIntact(DropGroup(id, revision));
      if id !in groups {
        return Some(GroupNotFound);
      }
      var free := IsUnreferenced(id);
      if !free || groups[id].revision != revision {
        return Some(GroupConflict);
      }
      groups := groups - {id};
      return None;
    }

    /** Resolve every group once, then check the workflow again with the messages filled in. */
    method ValidateGroups(steps: seq<Step>) returns (valid: bool)
      ensures valid == GroupsValid(grammar, groups, steps)
    {
      var walk, i := Flatten(steps), 0;
      var resolved: map<string, seq<string>> := map[];
      while i < |walk|
        invariant 0 <= i <= |walk|
        invariant forall id :: id in resolved <==> Names(walk[..i], id)
        invariant forall id :: id in resolved ==> Live(groups, id) && resolved[id] == groups[id].messages
      {
        ghost var before := walk[..i];
        assert walk[..i + 1] == before + [walk[i]];
        forall id
          ensures Names(walk[..i + 1], id)
                  <==> Names(before, id) || (FromGroup(walk[i]) && walk[i].message.groupId == id)
        {
          NamesConcat(before, [walk[i]], id);
          assert [walk[i]][0] == walk[i];
        }
        if FromGroup(walk[i]) {
          var id := walk[i].message.groupId;
          if id !in resolved {
            var r := GetMessages(id);
            if r.Err? {
              assert id in GroupIds(steps) by {
                assert walk[i] in walk;
                WalkFindsEveryDepth(steps, id);
              }
              return false;
            }
            resolved := resolved[id := r.value];
          }
        }
        i := i + 1;
      }
      assert walk[..i] == walk;
      ResolvedIsComplete(groups, steps, resolved);
      if resolved == map[] {
        return true;
      }
      return Checker.Accepts(grammar, Substituted(resolved, steps));
    }

    method CreateTask(id: string, d: Definition) returns (error: Option<Error>)
      requires Checker.Accepts(grammar, d.steps)
      modifies this
      ensures (error, Contents()) == MessageGroups.CreateTask(grammar, old(Contents()), id, d)
      ensures Settles(grammar, old(Contents()), NewTask(id, d), error, Contents())
      ensures Intact(grammar, old(Contents())) ==> Intact(grammar, Contents())
    {
      hide Settles, Intact;
      KeepsIntact(NewTask(id, d));
      if Find(tasks, d.name) < |tasks| {
        return Some(NameTaken);
      }
      if d.account !in accounts {
        return Some(UnknownAccount);
      }
      var valid := ValidateGroups(d.steps);
      if !valid {
        return Some(BadState);
      }
      if IndexById(tasks, id) < |tasks| {
        return Some(Integrity);
      }
      tasks := tasks + [Task(id, d, false, false, [])];
      return None;
    }

    method EditTask(ref: string, d: Definition) returns (error: Option<Error>)
      requires Checker.Accepts(grammar, d.steps)
      modifies this
      ensures (error, Contents()) == MessageGroups.EditTask(grammar, old(Contents()), ref, d)
      ensures Settles(grammar, old(Contents()), Edit(ref, d), error, Contents())
      ensures Intact(grammar, old(Contents())) ==> Intact(grammar, Contents())
    {
      hide Settles, Intact;
      KeepsIntact(Edit(ref, d));
      var k, other := Find(tasks, ref), Find(tasks, d.name);
      if k == |tasks| {
        return Some(UnknownTask);
      }
      if tasks[k].archived {
        return Some(BadState);
      }
      if other < |tasks| && tasks[other].id != tasks[k].id {
        return Some(NameTaken);
      }
      if d.account !in accounts {
        return Some(UnknownAccount);
      }
      var valid := ValidateGroups(d.steps);
      if !valid {
        return Some(BadState);
      }
      if exists j :: 0 <= j < |tasks| && j != k && tasks[j].draft.name == d.name {
        return Some(Integrity);
      }
      tasks := tasks[k := tasks[k].(draft := d)];
      return None;
    }

    method PublishTask(ref: string, schedulable: bool) returns (error: Option<Error>)
      modifies this
      ensures (error, Contents()) == MessageGroups.PublishTask(grammar, old(Contents()), ref, schedulable)
      ensures Settles(grammar, old(Contents()), Publish(ref, schedulable), error, Contents())
      ensures Intact(grammar, old(Contents())) ==> Intact(grammar, Contents())
    {
      hide Settles, Intact;
      KeepsIntact(Publish(ref, schedulable));
      var k := Find(tasks, ref);
      if k == |tasks| {
        return Some(UnknownTask);
      }
      var task := tasks[k];
      if task.archived || !Checker.Accepts(grammar, task.draft.steps) {
        return Some(BadState);
      }
      var valid := ValidateGroups(task.draft.steps);
      if !valid || (task.enabled && !schedulable) {
        return Some(BadState);
      }
      tasks := tasks[k := task.(versions := task.versions + [task.draft.steps])];
      return None;
    }

    method ArchiveTask(ref: string) returns (error: Option<Error>)
      modifies this
      ensures (error, Contents()) == SwitchTask(old(Contents()), ref, true)
      ensures Settles(grammar, old(Contents()), Archive(ref), error, Contents())
      ensures Intact(grammar, old(Contents())) ==> Intact(grammar, Contents())
    {
      hide Settles, Intact;
      KeepsIntact(Archive(ref));
      var k := Find(tasks, ref);
      if k == |tasks| {
        return Some(UnknownTask);
      }
      tasks := tasks[k := tasks[k].(archived := true, enabled := false)];
      return None;
    }

    method RestoreTask(ref: string) returns (error: Option<Error>)
      modifies this
      ensures (error, Contents()) == SwitchTask(old(Contents()), ref, false)
      ensures Settles(grammar, old(Contents()), Restore(ref), error, Contents())
      ensures Intact(grammar, old(Contents())) ==> Intact(grammar, Contents())
    {
      hide Settles, Intact;
      KeepsIntact(Restore(ref));
      var k := Find(tasks, ref);
      if k == |tasks| {
        return Some(UnknownTask);
      }
      tasks := tasks[k := tasks[k].(archived := false, enabled := false)];
      return None;
    }

    method EnableTask(ref: string, schedulable: bool) returns (error: Option<Error>)
      modifies this
      ensures (error, Contents()) == MessageGroups.EnableTask(old(Contents()), ref, schedulable)
      ensures Settles(grammar, old(Contents()), Enable(ref, schedulable), error, Contents())
      ensures Intact(grammar, old(Contents())) ==> Intact(grammar, Contents())
    {
      hide Settles, Intact;
      KeepsIntact(Enable(ref, schedulable));
      var k := Find(tasks, ref);
      if k == |tasks| {
        return Some(UnknownTask);
      }
      if tasks[k].archived || tasks[k].versions == [] || !schedulable {
        return Some(BadState);
      }
      tasks := tasks[k := tasks[k].(enabled := true)];
      return None;
    }

    method DisableTask(ref: string) returns (error: Option<Error>)
      modifies this
      ensures (error, Contents()) == MessageGroups.DisableTask(old(Contents()), ref)
      ensures Settles(grammar, old(Contents()), Disable(ref), error, Contents())
      ensures Intact(grammar, old(Contents())) ==> Intact(grammar, Contents())
    {
      hide Settles, Intact;
      KeepsIntact(Disable(ref));
      var k := Find(tasks, ref);
      if k == |tasks| {
        return Some(UnknownTask);
      }
      tasks := tasks[k := tasks[k].(enabled := false)];
      return None;
    }
  }

  /** The lookups made on the walk are the messages of all groups in the tree. */
  lemma ResolvedIsComplete(groups: map<string, GroupRow>, steps: seq<Step>, resolved: map<string, seq<string>>)
    requires forall id :: id in resolved <==> UsesGroup(steps, id)
    requires forall id :: id in resolved ==> Live(groups, id) && resolved[id] == groups[id].messages
    ensures resolved == MessagesOf(groups, GroupIds(steps)) && resolved.Keys == GroupIds(steps)
    ensures AllLive(groups, steps)
  {
    forall id
      ensures id in resolved <==> id in GroupIds(steps)
    {
      WalkFindsEveryDepth(steps, id);
    }
  }
}
