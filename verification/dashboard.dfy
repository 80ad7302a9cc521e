/** The task-list updates of the dashboard: add, toggle, delete and edit, each a pure
    function from the old list to the new one. */
module Dashboard {
  import opened Wrappers
  import opened Seqs
  import opened Tasks

  /** Adding puts the new task first; the old tasks follow unchanged. */
  function Add(tasks: seq<Task>, task: Task): (r: seq<Task>)
    ensures |r| == |tasks| + 1
    ensures r[0] == task && r[1..] == tasks
  {
    [task] + tasks
  }

  /** Flip `completed` on every task whose id is `id`. */
  function Toggle(tasks: seq<Task>, id: int): (r: seq<Task>)
    ensures |r| == |tasks|
    ensures forall i :: 0 <= i < |tasks| ==> r[i].(completed := tasks[i].completed) == tasks[i]
    ensures forall i :: 0 <= i < |tasks| ==> (r[i].completed != tasks[i].completed <==> tasks[i].id == id)
  {
    seq(|tasks|, i requires 0 <= i < |tasks| =>
      if tasks[i].id == id then tasks[i].(completed := !tasks[i].completed) else tasks[i])
  }

  /** Toggling the same id twice restores the list. */
  lemma ToggleInvolution(tasks: seq<Task>, id: int)
    ensures Toggle(Toggle(tasks, id), id) == tasks
  {
  }

  /** Toggling an id no task has changes nothing. */
  lemma ToggleAbsent(tasks: seq<Task>, id: int)
    requires forall i :: 0 <= i < |tasks| ==> tasks[i].id != id
    ensures Toggle(tasks, id) == tasks
  {
  }

  function HasId(id: int): Task -> bool {
    (t: Task) => t.id == id
  }

  function LacksId(id: int): Task -> bool {
    (t: Task) => t.id != id
  }

  /** Remove every task whose id is `id`, keeping the others in order. */
  function Delete(tasks: seq<Task>, id: int): (r: seq<Task>)
    ensures IsSubsequence(r, tasks)
    ensures forall i :: 0 <= i < |r| ==> r[i].id != id
    ensures forall i :: 0 <= i < |tasks| && tasks[i].id != id ==> tasks[i] in r
    ensures (forall i :: 0 <= i < |tasks| ==> tasks[i].id != id) ==> r == tasks
    ensures forall t :: multiset(r)[t] == if t.id != id then multiset(tasks)[t] else 0
  {
    KeepMultiset(tasks, LacksId(id));
    Keep(tasks, LacksId(id))
  }

  /** Deleting shortens the list by the number of tasks carrying the id. */
  lemma DeleteLength(tasks: seq<Task>, id: int)
    ensures |Delete(tasks, id)| == |tasks| - |Keep(tasks, HasId(id))|
  {
    KeepComplementLength(tasks, HasId(id), LacksId(id));
  }

  /** With ids unique, deleting an id that is present removes exactly one task. */
  lemma DeleteUnique(tasks: seq<Task>, id: int, i: nat)
    requires i < |tasks| && tasks[i].id == id
    requires forall j :: 0 <= j < |tasks| && j != i ==> tasks[j].id != id
    ensures |Delete(tasks, id)| == |tasks| - 1
  {
    KeepExactlyOne(tasks, HasId(id), i);
    DeleteLength(tasks, id);
  }

  /** Spread `patch` into every task whose id is `id`. */
  function Edit(tasks: seq<Task>, id: int, patch: Patch): (r: seq<Task>)
    ensures |r| == |tasks|
    ensures forall i :: 0 <= i < |tasks| && tasks[i].id != id ==> r[i] == tasks[i]
    ensures forall i :: 0 <= i < |tasks| && tasks[i].id == id ==> r[i] == Merge(tasks[i], patch)
  {
    seq(|tasks|, i requires 0 <= i < |tasks| =>
      if tasks[i].id == id then Merge(tasks[i], patch) else tasks[i])
  }

  /** An edit whose patch has no id, completed or createdAt keeps those fields on
      every task, matched or not. */
  lemma EditKeepsIdentity(tasks: seq<Task>, id: int, patch: Patch)
    requires KeepsIdentity(patch)
    ensures forall i :: 0 <= i < |tasks| ==>
      var r := Edit(tasks, id, patch)[i];
      r.id == tasks[i].id && r.completed == tasks[i].completed && r.createdAt == tasks[i].createdAt
  {
  }

  /** Editing an id no task has changes nothing. */
  lemma EditAbsent(tasks: seq<Task>, id: int, patch: Patch)
    requires forall i :: 0 <= i < |tasks| ==> tasks[i].id != id
    ensures Edit(tasks, id, patch) == tasks
  {
  }

  /** Re-applying an edit that keeps ids is a no-op. */
  lemma EditIdempotent(tasks: seq<Task>, id: int, patch: Patch)
    ensures Edit(Edit(tasks, id, patch), id, patch) == Edit(tasks, id, patch)
  {
    var once := Edit(tasks, id, patch);
    forall i | 0 <= i < |tasks|
      ensures Edit(once, id, patch)[i] == once[i]
    {
      if tasks[i].id == id {
        MergeIdempotent(tasks[i], patch);
      }
    }
  }
}
