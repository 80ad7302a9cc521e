# Task Manager — a Dafny model of its task and session logic

The Task Manager is a React single-page app. Users add tasks, tick them off, edit them,
delete them and filter them. A guest can try it for two minutes before the session
expires. The logic is spread through the components. This project restates it as pure
Dafny functions over immutable data and proves what those handlers promise:

- **the dashboard's list updates**: add, toggle, delete, edit (`Dashboard`, with the
  task record and the object spread in `Tasks`);
- **the derived view**: the four-way filter and the three counters (`TaskView`);
- **the new-task form**: `handleSubmit` in `TaskForm.jsx` (`TaskForm`);
- **the comma-separated tag field**: `split(",")`, `trim`, `filter(Boolean)` and its
  inverse `join(", ")` (`Tags`);
- **the list's edit session**: open, save, cancel and confirm-gated delete (`TaskList`);
- **the browser store**: guest and credential login, the guest countdown, logout
  (`Session`);
- **the sign-up validator** (`SignUp`).

Beneath these sit the JavaScript primitives the handlers rely on:

- `Array.prototype.filter` (`Seqs.Keep`);
- `trim`, `toLowerCase`, `includes`, `split` and `join` on strings (`Text`);
- `Number.prototype.toString` and `parseInt` on integers (`Numbers`);
- an `Option` type (`Wrappers`).

Inputs that come from outside the app are parameters:

- `Date.now()`, which gives task ids and clock readings;
- `new Date().toISOString()`, which gives `createdAt`;
- the answer to `window.confirm`;
- the `localStorage` map, modelled as a `map<string, string>`.

An `alert` becomes a result value, such as a refused save or a `Rejected` sign-up
verdict.

## Model

| member | source | states |
|---|---|---|
| Dashboard.Add | src/components/TaskDashboard.jsx:55-57 | The list grows by one; the new task comes first and the old tasks follow unchanged, in order. |
| Dashboard.Toggle | src/components/TaskDashboard.jsx:59-65 | Length is kept. Every field other than `completed` is unchanged on every task. `completed` changes on a task exactly when its id matches. |
| Dashboard.ToggleInvolution | src/components/TaskDashboard.jsx:59-65 | Toggling the same id twice gives back the original list. |
| Dashboard.ToggleAbsent | src/components/TaskDashboard.jsx:59-65 | Toggling an id no task carries leaves the list unchanged. |
| Dashboard.Delete | src/components/TaskDashboard.jsx:67-69 | The result is a subsequence of the list (order kept). No kept task has the id, and every task without the id is kept, as many times as the list holds it. An absent id leaves the list unchanged. |
| Dashboard.DeleteLength | src/components/TaskDashboard.jsx:67-69 | The list shrinks by exactly the number of tasks that carry the id. |
| Dashboard.DeleteUnique | src/components/TaskDashboard.jsx:67-69 | When exactly one task carries the id, delete removes exactly one task. |
| Dashboard.Edit | src/components/TaskDashboard.jsx:72-78 | Length is kept and tasks with another id are unchanged. Each matching task becomes itself spread with the patch. |
| Dashboard.EditKeepsIdentity | src/components/TaskDashboard.jsx:72-78 | A patch without id, completed and createdAt keeps those three fields on every task. |
| Dashboard.EditAbsent | src/components/TaskDashboard.jsx:72-78 | Editing an id no task carries leaves the list unchanged. |
| Dashboard.EditIdempotent | src/components/TaskDashboard.jsx:72-78 | Applying any edit twice is the same as applying it once: edited tasks either keep the id, and spreading the patch again changes nothing, or lose it, and the second pass does not touch them. |
| Tasks.Merge | src/components/TaskDashboard.jsx:75 | `{ ...task, ...patch }`, field by field: every field the patch carries wins, and every field it omits keeps the task's value. An empty patch changes nothing. |
| Tasks.MergeIdempotent | src/components/TaskDashboard.jsx:75 | Spreading the same patch twice equals spreading it once. |
| TaskView.View | src/components/TaskDashboard.jsx:80-94 | The view is an order-preserving subsequence of the list. A task is in it if and only if all four tests hold: case-insensitive search, status, priority, and the tag test. Each matching task appears as many times as in the list; no other task appears. |
| TaskView.ViewUnfiltered | src/components/TaskDashboard.jsx:81-93 | An empty search, status All, priority All and a whitespace-only tag filter show the whole list. |
| TaskView.CountsAddUp | src/components/TaskDashboard.jsx:96-98 | The all-tasks count is the active count plus the completed count. |
| TaskView.CountsMatchViews | src/components/TaskDashboard.jsx:80-98 | Each counter equals the length of the view its status button selects while the other filters are off. |
| Session.Tick | src/components/TaskDashboard.jsx:37-47 | Expired if and only if the parsed expiry is at most `now`. An unparsable expiry gives `NotANumber`. Otherwise the whole seconds are `floor((expiry - now) / 1000)`, shown by `1000*s <= left < 1000*(s+1)`. |
| Session.Clock | src/components/TaskDashboard.jsx:141 | The minutes and seconds shown satisfy `60*m + s == timeLeft` and `s < 60`. |
| Session.Mount | src/components/TaskDashboard.jsx:31-35 | The countdown is armed with the stored expiry exactly when `guest` is `"true"` and a non-empty `guestExpiry` is stored. Nothing is displayed yet. |
| Session.Step | src/components/TaskDashboard.jsx:36-49 | With no armed expiry, nothing changes. On expiry, the interval stops and the alert shows. Otherwise it keeps running and displays a reading. |
| Session.ExpiryFiresOnce | src/components/TaskDashboard.jsx:39-41 | After expiry has fired, later ticks change nothing. |
| Session.ClearSession | src/components/TaskDashboard.jsx:171-175 | Logout, and the end of an expired guest session, leave no key in the store and go to the entry page. |
| Session.GuestLogin | src/components/Login.jsx:52-57 | Adds `guest = "true"` and `guestExpiry`, whose `parseInt` is `now + 120000`. Keeps every other key and value. Navigates to the dashboard. |
| Session.CredentialLogin | src/components/Login.jsx:162-167 | Removes exactly the `guest` and `guestExpiry` keys. Keeps every other value. Navigates to the dashboard. |
| Session.GuestSessionTimeline | src/components/Login.jsx:52-57 | Right after a guest login, the dashboard arms the countdown. Every tick before `now + 120000` shows the seconds left. Every tick from then on expires. |
| Session.NoCountdownWithoutGuest | src/components/TaskDashboard.jsx:31-35 | After a credentialed login or a clear, the dashboard arms no countdown. |
| Numbers.ParseInt | src/components/TaskDashboard.jsx:37 | `NaN` if and only if no digit follows the leading whitespace and the sign. A negative result only comes from a minus sign. |
| Numbers.ParseIntSkipsBlank | src/components/TaskDashboard.jsx:37 | Leading whitespace does not change what `parseInt` reads. |
| Numbers.ParsePlusDigits | src/components/TaskDashboard.jsx:37 | A plus sign, then digits, then text that does not start with a digit reads as the digits' value. |
| Numbers.IntToString | src/components/Login.jsx:55 | `toString` gives at least one character and starts with a minus sign exactly for negative integers. `parseInt` reads it back (`Numbers.ParseIntRoundTrip`). |
| Numbers.ParseIntToString | src/components/TaskDashboard.jsx:37 | Parsing an integer's decimal text, followed by anything that does not start with a digit, gives the integer back. |
| Numbers.ParseIntRoundTrip | src/components/Login.jsx:55 | `parseInt(n.toString()) == n` for every integer `n`. |
| Text.Trim | src/components/TaskForm.jsx:18 | The result neither starts nor ends with whitespace. It is empty if and only if the input is all whitespace. |
| Text.TrimContent | src/components/TaskForm.jsx:18 | The result is a contiguous stretch of the input with only whitespace before and after it. |
| Text.Lower | src/components/TaskDashboard.jsx:81 | Same length; each character is lower-cased in place, and no upper-case letter is left. |
| Text.Contains | src/components/TaskDashboard.jsx:81 | `includes`: a match needs a needle no longer than the haystack (`Text.ContainsEmpty`: the empty needle matches everywhere). |
| Text.ContainsInside | src/components/TaskDashboard.jsx:91 | Any string includes each of its substrings. |
| Text.Join | src/components/TaskList.jsx:149 | Joining no pieces gives ""; otherwise the join starts with the first piece. The separator step is `Text.JoinCons`. |
| Text.JoinCons | src/components/TaskList.jsx:149 | Joining a piece in front of a non-empty list gives that piece, the separator, then the join of the rest. |
| Text.JoinEndsWithLast | src/components/TaskList.jsx:149 | A join ends with its last piece. |
| Text.TrimOmits | src/components/TaskForm.jsx:26 | Trimming introduces no character that was not in the input. |
| Text.Split | src/components/TaskForm.jsx:26 | There is always at least one piece, and no piece contains the separator. |
| Text.JoinSplit | src/components/TaskForm.jsx:26 | Joining the pieces of a split with the same separator gives back the string. |
| Text.SplitJoin | src/components/TaskForm.jsx:26 | Splitting a join of separator-free pieces gives back the pieces. |
| Tags.ParseTags | src/components/TaskForm.jsx:26 | Every parsed tag is non-empty, has no surrounding whitespace and contains no comma. |
| Tags.ParseTagsConcat | src/components/TaskForm.jsx:26 | The tags of `x + "," + y` are the tags of `x` followed by those of `y`: input order is kept. |
| Tags.ParseTagsOnlySeparators | src/components/TaskForm.jsx:26 | A field of commas and whitespace only parses to no tags. |
| Seqs.Keep | src/components/TaskDashboard.jsx:80 | `filter`: the kept elements form an order-preserving subsequence of the list. Each one satisfies the test, and every element that satisfies it is kept. When all elements satisfy it, the list comes back unchanged. |
| Seqs.KeepMultiset | src/components/TaskDashboard.jsx:80 | `filter` keeps every element the test accepts, as many times as it occurs, and no other. |
| Tags.ParseJoinWith | src/components/TaskList.jsx:149-161 | Joining well-formed tags with any comma-then-whitespace separator and parsing the result gives the tags back. |
| Tags.ParseJoin | src/components/TaskList.jsx:149-161 | Parsing `tags.join(", ")` gives back any list of well-formed tags. |
| Tags.ParseTagsStable | src/components/TaskList.jsx:149-161 | Joining and re-parsing already parsed tags changes nothing. |
| TaskForm.Submit | src/components/TaskForm.jsx:16-38 | No task if and only if the text is blank after trimming; the form is then unchanged. Otherwise the task has the untrimmed text, `completed` false, the form's priority and due date, and the parsed tags. The form then resets to its initial fields. |
| TaskForm.SubmitTo | src/components/TaskForm.jsx:16-38 | A blank submit leaves the dashboard's list alone. Otherwise the list becomes the submitted task followed by the old list. |
| TaskForm.SubmitDefaults | src/components/TaskForm.jsx:8-28 | Text with the other fields at their defaults prepends an open, Medium task with due date "" and no tags. |
| TaskList.OpenEdit | src/components/TaskList.jsx:144-150 | Edit mode opens on the task's id and copies its text and priority. A missing due date becomes "". The tag field is the tags joined with ", ", and "" for a missing tag list. |
| TaskList.OpenEditTagsRoundTrip | src/components/TaskList.jsx:149-161 | The tag field that opening fills in parses back to the task's well-formed tags. |
| TaskList.IdleStart | src/components/TaskList.jsx:86-93 | The list starts out of edit mode, and cancelling there changes nothing. Opening a task sets every field, whatever the form held before. |
| TaskList.SaveEdit | src/components/TaskList.jsx:152-164 | No `onEdit` if and only if the text is blank after trimming; edit mode then stays on. Otherwise it sends the trimmed text, priority, due date and parsed tags, with no id, completed or createdAt, and edit mode ends. |
| TaskList.CancelEdit | src/components/TaskList.jsx:166-168 | Edit mode ends and every field keeps its value. |
| TaskList.DeleteClick | src/components/TaskList.jsx:170-174 | `onDelete(id)` is called if and only if the user confirms. |
| TaskList.BlankSaveChangesNothing | src/components/TaskList.jsx:152-156 | A blank save leaves the list and the edit mode as they were. |
| TaskList.SaveKeepsIdentity | src/components/TaskList.jsx:157-163 | No save changes any task's id, completion or creation time. |
| TaskList.OpenSaveRoundTrip | src/components/TaskList.jsx:144-164 | Opening a task and saving it untouched only normalises it: the text is trimmed, a missing due date becomes "" and a missing tag list becomes empty. |
| TaskList.UnconfirmedDeleteKeepsTasks | src/components/TaskList.jsx:170-174 | An unconfirmed delete leaves the list alone. A confirmed one is the dashboard's delete. |
| SignUp.Submit | src/components/SignUp.jsx:14-27 | Mismatched passwords are rejected with "Passwords do not match!" whatever else holds. Matching passwords with an empty field are rejected with "Please fill in all fields.". Sign-up is accepted, going to `/`, if and only if the passwords match and every field is filled. |
| SignUp.EmptyConfirmIsMismatch | src/components/SignUp.jsx:16-23 | An empty confirmation under a typed password reports a mismatch, because the match is checked first. |

Points about the code a reader might not expect:

- **Blank text on edit.** The dashboard's edit handler applies any patch. It is the
  list's save handler that refuses a blank text.
- **Delete.** It removes every task carrying the id, not one task.
- **Ids.** They come from `Date.now()` and nothing makes them unique. Lemmas that need
  uniqueness (`Dashboard.DeleteUnique`) assume it.
- **Logout.** It clears the whole store, tasks included.
- **The tag filter.** It trims the filter text only to test for blankness. The
  containment test uses the untrimmed text.
- **Due date.** A new task always gets one, `""` when none was picked.
- **An unreadable `guestExpiry`.** A non-empty value with no digit after its leading
  whitespace and sign parses to `NaN`. `NaN <= 0` is false, so the session never expires
  and the banner shows `NaN`. A value that starts with digits and ends in junk reads as
  its digit prefix and expires normally. An empty value arms no countdown at all.

## Left out

- JSX, class names, dark mode, animations, the help popup and list/block view toggling: presentation only.
- `loadTasks`/`saveTasks`: the storage adapter module is not part of this model. The tasks' own persistence is therefore not modelled, only the session keys.
- `setInterval`/`setTimeout` and effect lifecycles: one interval callback is `Session.Step` with the clock reading as a parameter. The three-second delay before the store is cleared is not modelled; `Session.ClearSession` is the clear that follows it.
- `Date.now()` and `new Date().toISOString()`: parameters (`id`, `now`, `createdAt`). The `createdAt` string's format is not modelled.
- `formatDateTime` and locale formatting: presentation only.
- `window.confirm` and `alert`: a boolean parameter and result values. The alert texts of the save handler and the success alert of the sign-up form are not modelled.
- `console.log` in the sign-up handler: output only.
- HTML `required` attributes on the login and sign-up inputs: browser behaviour outside the handlers.
- Text.Trim: `trim` strips Unicode white space and line terminators. The model strips ASCII tab, line feed, vertical tab, form feed, carriage return and space only.
- Text.Lower: `toLowerCase` maps all of Unicode. The model lower-cases ASCII letters only.
- Numbers.ParseInt: the `0x` hexadecimal prefix that `parseInt` also accepts without a radix is not modelled. Only decimal text is read. The leading whitespace it skips is the ASCII set of `Text.Trim`, not all of Unicode.
- Numbers.IntToString: integers are unbounded. JavaScript numbers lose integer precision above 2^53, and the exponent notation `toString` uses for large magnitudes is not modelled.
- Tasks.Task: `priority` is one of Low, Medium and High. Other strings that a stored task might hold are not modelled.
- Session.Step: it states which branch a tick takes and that the display is then set. The displayed seconds are stated through `Session.Tick` and `Session.GuestSessionTimeline`.
- App routing, the footer and the build configuration: no logic beyond navigation targets, which appear as `Session.Route`.
