/** The dashboard's derived view: the four-way filter over the task list and the
    three counters shown on the status buttons. */
module TaskView {
  import opened Seqs
  import opened Text
  import opened Tasks

  datatype StatusFilter = AllStatuses | Active | Completed

  /** `AllPriorities` is the filter's "All" option. */
  datatype PriorityFilter = AllPriorities | Only(priority: Priority)

  datatype Criteria = Criteria(search: string, status: StatusFilter, priority: PriorityFilter, tag: string)

  /** The search term occurs in the text, ignoring case. */
  predicate MatchesSearch(t: Task, search: string) {
    Contains(Lower(t.text), Lower(search))
  }

  predicate MatchesStatus(t: Task, status: StatusFilter) {
    match status
    case AllStatuses => true
    case Active => !t.completed
    case Completed => t.completed
  }

  predicate MatchesPriority(t: Task, priority: PriorityFilter) {
    priority.AllPriorities? || t.priority == priority.priority
  }

  /** A blank tag filter lets everything through; otherwise some tag must contain the
      filter text, ignoring case. The blank test trims, the containment test does not. */
  predicate MatchesTag(t: Task, tag: string) {
    Trim(tag) == "" || exists k :: 0 <= k < |TagsOf(t)| && Contains(Lower(TagsOf(t)[k]), Lower(tag))
  }

  predicate Matches(t: Task, c: Criteria) {
    MatchesSearch(t, c.search) && MatchesStatus(t, c.status)
    && MatchesPriority(t, c.priority) && MatchesTag(t, c.tag)
  }

  function Matcher(c: Criteria): Task -> bool {
    (t: Task) => Matches(t, c)
  }

  /** The displayed tasks: those passing all four tests, in list order. */
  function View(tasks: seq<Task>, c: Criteria): (r: seq<Task>)
    ensures IsSubsequence(r, tasks)
    ensures forall i :: 0 <= i < |r| ==>
      r[i] in tasks && MatchesSearch(r[i], c.search) && MatchesStatus(r[i], c.status)
      && MatchesPriority(r[i], c.priority) && MatchesTag(r[i], c.tag)
    ensures forall i :: 0 <= i < |tasks| ==>
      (MatchesSearch(tasks[i], c.search) && MatchesStatus(tasks[i], c.status)
       && MatchesPriority(tasks[i], c.priority) && MatchesTag(tasks[i], c.tag)) ==> tasks[i] in r
    ensures forall t :: multiset(r)[t] == if Matches(t, c) then multiset(tasks)[t] else 0
  {
    KeepMultiset(tasks, Matcher(c));
    Keep(tasks, Matcher(c))
  }

  /** Empty search, "All" status and priority and a blank tag filter show every task. */
  lemma ViewUnfiltered(tasks: seq<Task>, search: string, tag: string)
    requires |search| == 0 && IsBlank(tag)
    ensures View(tasks, Criteria(search, AllStatuses, AllPriorities, tag)) == tasks
  {
    forall i | 0 <= i < |tasks|
      ensures Matches(tasks[i], Criteria(search, AllStatuses, AllPriorities, tag))
    {
      SearchlessMatch(tasks[i], search);
    }
  }

  /** The empty search term matches every task. */
  lemma SearchlessMatch(t: Task, search: string)
    requires |search| == 0
    ensures MatchesSearch(t, search)
  {
    assert Lower(search) == "";
    ContainsEmpty(Lower(t.text));
  }

  predicate IsActive(t: Task) {
    !t.completed
  }

  predicate IsCompleted(t: Task) {
    t.completed
  }

  function AllCount(tasks: seq<Task>): nat {
    |tasks|
  }

  function ActiveCount(tasks: seq<Task>): nat {
    |Keep(tasks, IsActive)|
  }

  function CompletedCount(tasks: seq<Task>): nat {
    |Keep(tasks, IsCompleted)|
  }

  /** Every task is counted as exactly one of active and completed. */
  lemma CountsAddUp(tasks: seq<Task>)
    ensures AllCount(tasks) == ActiveCount(tasks) + CompletedCount(tasks)
  {
    KeepComplementLength(tasks, IsActive, IsCompleted);
  }

  /** The number on each status button is the length of the view that button selects
      while the other filters are off. */
  lemma CountsMatchViews(tasks: seq<Task>, search: string, tag: string)
    requires |search| == 0 && IsBlank(tag)
    ensures |View(tasks, Criteria(search, AllStatuses, AllPriorities, tag))| == AllCount(tasks)
    ensures |View(tasks, Criteria(search, Active, AllPriorities, tag))| == ActiveCount(tasks)
    ensures |View(tasks, Criteria(search, Completed, AllPriorities, tag))| == CompletedCount(tasks)
  {
    ViewUnfiltered(tasks, search, tag);
    StatusView(tasks, search, tag, Active, IsActive);
    StatusView(tasks, search, tag, Completed, IsCompleted);
  }

  /** With the other filters off, a status filter keeps what `keep` keeps. */
  lemma StatusView(tasks: seq<Task>, search: string, tag: string, status: StatusFilter, keep: Task -> bool)
    requires |search| == 0 && IsBlank(tag)
    requires forall t :: keep(t) == MatchesStatus(t, status)
    ensures View(tasks, Criteria(search, status, AllPriorities, tag)) == Keep(tasks, keep)
  {
    var c := Criteria(search, status, AllPriorities, tag);
    forall i | 0 <= i < |tasks|
      ensures Matcher(c)(tasks[i]) == keep(tasks[i])
    {
      SearchlessMatch(tasks[i], search);
    }
    KeepCongruent(tasks, Matcher(c), keep);
  }
}
