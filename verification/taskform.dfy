/** The new-task form: its fields, the blank check on submit, the task it builds and
    the reset afterwards. The id and the creation time are parameters. */
module TaskForm {
  import opened Wrappers
  import opened Text
  import opened Tags
  import opened Tasks
  import Dashboard

  datatype Form = Form(text: string, priority: Priority, dueDate: string, tags: string)

  /** The fields when the form first renders and after each successful submit. */
  const Initial := Form("", Medium, "", "")

  /** The form afterwards and the task handed to `onAdd`, if any. */
  datatype Submission = Submission(form: Form, added: Option<Task>)

  function Submit(f: Form, id: int, createdAt: string): (r: Submission)
    ensures r.added.None? <==> IsBlank(f.text)
    ensures r.added.None? ==> r.form == f
    ensures r.added.Some? ==> r.form == Initial
    ensures r.added.Some? ==>
      var t := r.added.value;
      && t.id == id && t.createdAt == createdAt
      && t.text == f.text && !IsBlank(t.text)
      && !t.completed
      && t.priority == f.priority && t.dueDate == Some(f.dueDate)
      && t.tags == Some(ParseTags(f.tags))
      && forall k :: 0 <= k < |TagsOf(t)| ==> WellFormedTag(TagsOf(t)[k])
  {
    if Trim(f.text) == "" then Submission(f, None)
    else
      var t := Task(id, f.text, false, f.priority, Some(f.dueDate), Some(ParseTags(f.tags)), createdAt);
      Submission(Initial, Some(t))
  }

  /** The dashboard's list after a submit: the new task in front, or no change. */
  function SubmitTo(tasks: seq<Task>, f: Form, id: int, createdAt: string): (r: seq<Task>)
    ensures IsBlank(f.text) ==> r == tasks
    ensures !IsBlank(f.text) ==> |r| == |tasks| + 1 && r[1..] == tasks && r[0].text == f.text
    ensures !IsBlank(f.text) ==> r == [Submit(f, id, createdAt).added.value] + tasks
  {
    match Submit(f, id, createdAt).added
    case None => tasks
    case Some(t) => Dashboard.Add(tasks, t)
  }

  /** Submitting a non-blank text at medium priority, with no due date and nothing but
      whitespace in the tags field, puts an open task with that text, an empty due
      date and no tags in front of the list. */
  lemma SubmitDefaults(tasks: seq<Task>, f: Form, id: int, createdAt: string)
    requires !IsBlank(f.text) && f.priority == Medium && f.dueDate == "" && IsBlank(f.tags)
    ensures SubmitTo(tasks, f, id, createdAt)
      == [Task(id, f.text, false, Medium, Some(""), Some([]), createdAt)] + tasks
  {
    ParseTagsOnlySeparators(f.tags);
  }
}
