/** The task record the dashboard, the form and the list pass around, and the
    shallow object merge `{ ...task, ...patch }` used to edit one. */
module Tasks {
  import opened Wrappers

  datatype Priority = Low | Medium | High

  /** A task. `dueDate` and `tags` are optional because the list and the filter guard
      against their absence (`task.dueDate || ''`, `task.tags || []`). */
  datatype Task = Task(
    id: int,
    text: string,
    completed: bool,
    priority: Priority,
    dueDate: Option<string>,
    tags: Option<seq<string>>,
    createdAt: string)

  /** The tag list the filter and the edit form read: a missing list reads as empty. */
  function TagsOf(t: Task): seq<string> {
    t.tags.GetOr([])
  }

  /** The fields an object spread may carry; `None` means the key is absent. */
  datatype Patch = Patch(
    id: Option<int>,
    text: Option<string>,
    completed: Option<bool>,
    priority: Option<Priority>,
    dueDate: Option<string>,
    tags: Option<seq<string>>,
    createdAt: Option<string>)

  const NoChange := Patch(None, None, None, None, None, None, None)

  /** The patch leaves the fields that identify a task and its history alone. */
  predicate KeepsIdentity(p: Patch) {
    p.id.None? && p.completed.None? && p.createdAt.None?
  }

  /** `{ ...t, ...p }`: present fields of `p` win, every other field comes from `t`. */
  function Merge(t: Task, p: Patch): (r: Task)
    ensures p.id.None? ==> r.id == t.id
    ensures p.completed.None? ==> r.completed == t.completed
    ensures p.createdAt.None? ==> r.createdAt == t.createdAt
    ensures r.text == if p.text.Some? then p.text.value else t.text
    ensures r.priority == if p.priority.Some? then p.priority.value else t.priority
    ensures r.dueDate == if p.dueDate.Some? then p.dueDate else t.dueDate
    ensures r.tags == if p.tags.Some? then p.tags else t.tags
    ensures p.id.Some? ==> r.id == p.id.value
    ensures p.completed.Some? ==> r.completed == p.completed.value
    ensures p.createdAt.Some? ==> r.createdAt == p.createdAt.value
    ensures p == NoChange ==> r == t
  {
    Task(
      p.id.GetOr(t.id),
      p.text.GetOr(t.text),
      p.completed.GetOr(t.completed),
      p.priority.GetOr(t.priority),
      if p.dueDate.Some? then p.dueDate else t.dueDate,
      if p.tags.Some? then p.tags else t.tags,
      p.createdAt.GetOr(t.createdAt))
  }

  /** Spreading the same patch twice is the same as spreading it once. */
  lemma MergeIdempotent(t: Task, p: Patch)
    ensures Merge(Merge(t, p), p) == Merge(t, p)
  {
  }
}
