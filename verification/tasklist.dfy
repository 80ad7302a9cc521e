/** The list's edit session: which task is being edited, the four edit fields, and
    what saving, cancelling and confirmed deletion hand to the dashboard. */
module TaskList {
  import opened Wrappers
  import opened Text
  import opened Tags
  import opened Tasks
  import Dashboard

  /** `editing` is the id of the task in edit mode, `None` when none is. */
  datatype Editor = Editor(editing: Option<int>, text: string, priority: Priority, dueDate: string, tags: string)

  const Idle := Editor(None, "", Medium, "", "")

  /** Separator the edit form uses to show a tag list as text. */
  const TagSeparator := ", "

  /** Enter edit mode for `t`, filling the fields from it. */
  function OpenEdit(e: Editor, t: Task): (r: Editor)
    ensures r.editing == Some(t.id)
    ensures r.text == t.text && r.priority == t.priority
    ensures t.dueDate.None? ==> r.dueDate == ""
    ensures t.dueDate.Some? ==> r.dueDate == t.dueDate.value
    ensures r.tags == Join(TagsOf(t), TagSeparator)
    ensures t.tags.None? ==> r.tags == ""
  {
    Editor(Some(t.id), t.text, t.priority, t.dueDate.GetOr(""), Join(TagsOf(t), TagSeparator))
  }

  /** The tag field of an opened task parses back to its tags when they are well formed,
      as every list the forms produce is. */
  lemma OpenEditTagsRoundTrip(e: Editor, t: Task)
    requires forall k :: 0 <= k < |TagsOf(t)| ==> WellFormedTag(TagsOf(t)[k])
    ensures ParseTags(OpenEdit(e, t).tags) == TagsOf(t)
  {
    ParseJoin(TagsOf(t));
  }

  /** A call to the dashboard's `onEdit`. */
  datatype EditCall = EditCall(id: int, patch: Patch)

  datatype Saved = Saved(editor: Editor, call: Option<EditCall>)

  /** The patch a save sends: the edit fields, with the given text. */
  function EditPatch(text: string, e: Editor): (p: Patch)
    ensures KeepsIdentity(p)
  {
    Patch(None, Some(text), None, Some(e.priority), Some(e.dueDate), Some(ParseTags(e.tags)), None)
  }

  /** Save: blank text is refused and edit mode stays on; otherwise the trimmed text and
      the re-parsed tags go out and edit mode ends. */
  function SaveEdit(e: Editor, taskId: int): (r: Saved)
    ensures r.call.None? <==> IsBlank(e.text)
    ensures r.call.None? ==> r.editor == e
    ensures r.call.Some? ==> r.editor == e.(editing := None) && r.call.value.id == taskId
    ensures r.call.Some? ==> KeepsIdentity(r.call.value.patch)
    ensures r.call.Some? ==>
      var p := r.call.value.patch;
      && p.text == Some(Trim(e.text)) && IsTrimmed(p.text.value) && p.text.value != ""
      && p.priority == Some(e.priority) && p.dueDate == Some(e.dueDate)
      && p.tags == Some(ParseTags(e.tags))
  {
    var text := Trim(e.text);
    if text == "" then Saved(e, None)
    else Saved(e.(editing := None), Some(EditCall(taskId, EditPatch(text, e))))
  }

  /** Leave edit mode; the fields keep their values and nothing is sent. */
  function CancelEdit(e: Editor): (r: Editor)
    ensures r.editing.None?
    ensures r.(editing := e.editing) == e
  {
    e.(editing := None)
  }

  /** The list starts out of edit mode, cancelling there changes nothing, and opening a task
      overwrites every field, so it does not matter what the form held before. */
  lemma IdleStart(e: Editor, t: Task)
    ensures Idle.editing.None? && CancelEdit(Idle) == Idle
    ensures OpenEdit(e, t) == OpenEdit(Idle, t)
  {
  }

  /** The delete button: `onDelete(id)` happens exactly when the user confirms. */
  function DeleteClick(id: int, confirmed: bool): (r: Option<int>)
    ensures r.Some? <==> confirmed
    ensures r.Some? ==> r.value == id
  {
    if confirmed then Some(id) else None
  }

  /** The dashboard's list after whatever the list asked of it. */
  function ApplyEdit(tasks: seq<Task>, call: Option<EditCall>): seq<Task> {
    match call
    case None => tasks
    case Some(c) => Dashboard.Edit(tasks, c.id, c.patch)
  }

  function ApplyDelete(tasks: seq<Task>, call: Option<int>): seq<Task> {
    match call
    case None => tasks
    case Some(id) => Dashboard.Delete(tasks, id)
  }

  /** A refused save leaves both the list and the edit mode as they were. */
  lemma BlankSaveChangesNothing(tasks: seq<Task>, e: Editor, taskId: int)
    requires IsBlank(e.text)
    ensures ApplyEdit(tasks, SaveEdit(e, taskId).call) == tasks
    ensures SaveEdit(e, taskId).editor.editing == e.editing
  {
  }

  /** No save can change a task's id, completion or creation time. */
  lemma SaveKeepsIdentity(tasks: seq<Task>, e: Editor, taskId: int)
    ensures var r := ApplyEdit(tasks, SaveEdit(e, taskId).call);
      && |r| == |tasks|
      && forall i :: 0 <= i < |tasks| ==>
           r[i].id == tasks[i].id && r[i].completed == tasks[i].completed
           && r[i].createdAt == tasks[i].createdAt
  {
    var s := SaveEdit(e, taskId);
    if s.call.Some? {
      Dashboard.EditKeepsIdentity(tasks, s.call.value.id, s.call.value.patch);
    }
  }

  /** Opening a task and saving it untouched changes only what the form normalises:
      the text is trimmed, a missing due date becomes "" and a missing tag list []. */
  lemma OpenSaveRoundTrip(e: Editor, t: Task)
    requires !IsBlank(t.text)
    requires forall k :: 0 <= k < |TagsOf(t)| ==> WellFormedTag(TagsOf(t)[k])
    ensures var s := SaveEdit(OpenEdit(e, t), t.id);
      && s.call.Some?
      && s.editor.editing.None?
      && Merge(t, s.call.value.patch)
         == t.(text := Trim(t.text), dueDate := Some(t.dueDate.GetOr("")), tags := Some(TagsOf(t)))
  {
    OpenEditTagsRoundTrip(e, t);
  }

  /** Refusing the confirmation leaves the list untouched. */
  lemma UnconfirmedDeleteKeepsTasks(tasks: seq<Task>, id: int)
    ensures ApplyDelete(tasks, DeleteClick(id, false)) == tasks
    ensures ApplyDelete(tasks, DeleteClick(id, true)) == Dashboard.Delete(tasks, id)
  {
  }
}
