# Task list: state model

A Dafny model of the browser task-list manager's state logic. Three parts are modelled.

- **The synchronised task list** (frontend/task-app.js) is the class `TaskApp.TaskStore`. It holds the task list, the selected filter, the id being edited, the mode flag (`backendAvailable`) and what local storage holds under the "tasks" key. Every handler is a method. The handlers are `init`, `addTask`, `toggleTask`, `deleteTask`, `saveEdit`, the state part of `editTask`, `cancelEdit`, the filter buttons, `renderTasks` and `updateStats`. In remote mode, add and delete change the list only after the backend call succeeds. Toggle and edit change the list first and act again when the call fails (see below for what that restores). In fallback mode, every change is saved to local storage (a save that throws is not modelled; see below).
- **The record conversion** (frontend/api.js) is in `TaskApi`: `convertBackendTask` and `convertFrontendTask`, with the record shapes on both sides and the requests the list sends.
- **The local-only list** (frontend/aryan_js.js) is the class `LocalOnlyApp.LocalTaskList`. Its toggle and edit rebuild the list with `map`, so they change every task with the id. task-app.js changes only the first task with the id. Its filtering and counting code is the same as task-app.js's, on a smaller record, so both classes use the one generic `Views` module.

The remaining modules are shared. `Scenarios` works through three example runs (a fallback-mode create, a failed remote toggle, a declined delete) and checks the outcomes from the handlers' contracts alone. `Text` models JavaScript's `String.prototype.trim`, using the exact ECMAScript whitespace set. `JsArray` models `Array.prototype.filter`, `map` and `find`; `find` is modelled by index, so the found task can be updated in the list.

Outside inputs are method parameters:

- the backend's reply to each request (a record or nothing, success or failure);
- the availability probe's answer;
- the list fetched at start-up;
- the user's `confirm` and `prompt` answers;
- `Date.now()` and the ISO timestamp.

A handler that calls the backend returns the request it sends. `None` means no call is made.

Points where the code's behaviour is easy to misread; the model follows the code:

- A failed remote `saveEdit` does not restore the old text. The task's text becomes the untrimmed input (frontend/task-app.js:225). `editingTaskId` is not cleared, but nothing in frontend/task-app.js reads that variable; the failure path re-renders the list, so the edit box is gone.
- A failed remote `toggleTask` flips the task back and derives `status` from `completed` (frontend/task-app.js:141-142). This restores the original task only when its status was already "pending" or "completed" to match.
- Task ids come from `Date.now()` or from the backend. Nothing makes them unique, so the model never assumes they are.
- Converting a backend record with an empty title to a frontend task and back loses the title: the empty `text` is falsy, and the converted task has no `title` to fall back on.
- Local storage can hold a list whose `completed` and `status` disagree. So the agreement invariant is proved preserved by every handler and established by a remote `init`, but not established by a fallback `init`.

## Model

| member | source | states |
|---|---|---|
| `Text.Trim` | frontend/task-app.js:52 | the trimmed input is a contiguous slice of the input with only whitespace before and after it; it is empty exactly when the input is all whitespace, and otherwise starts and ends with a non-whitespace character |
| `Text.StartOfText` | frontend/task-app.js:52 | the scan for where the trimmed text starts: from the given position, everything it skips is whitespace, and it stops at the end of the string or at a character that is not whitespace |
| `Text.EndOfText` | frontend/task-app.js:52 | the scan for where the trimmed text ends: everything it skips at the end is whitespace, and it stops at the start bound or just past a character that is not whitespace |
| `Text.TrimOfTrimmed` | frontend/task-app.js:209 | input that neither starts nor ends with whitespace is kept as it is |
| `Text.TrimIdempotent` | frontend/aryan_js.js:7 | trimming an already trimmed input changes nothing |
| `JsArray.Filter` | frontend/task-app.js:101-103 | `filter` keeps exactly the elements satisfying the predicate: each kept element is in the input and passes, and each passing element is kept |
| `JsArray.FilterConcat` | frontend/task-app.js:164 | `filter` keeps the input order: filtering a concatenation is concatenating the filtered parts |
| `JsArray.FilterPartition` | frontend/task-app.js:101-103 | filtering by a predicate and by its negation splits the input with no loss and no duplicates, counted as lengths and as multisets |
| `JsArray.FilterKeepsAll` | frontend/aryan_js.js:36 | `filter` returns its input exactly when every element passes |
| `JsArray.Map` | frontend/task-app.js:22 | `map` has the input's length and applies the callback at every position |
| `JsArray.MapInvolution` | frontend/aryan_js.js:24-26 | mapping twice with a self-inverse callback gives back the input |
| `JsArray.FindIndex` | frontend/task-app.js:131 | `find` picks the first element satisfying the predicate, and finds nothing exactly when no element satisfies it |
| `TaskApi.ConvertBackendTask` | frontend/api.js:113-123 | copies id, status and timestamps, and takes text from title; sets `completed` exactly when status is "completed"; gives description "" when the backend's is missing or empty, and copies it otherwise; the result's `completed` and `status` agree |
| `TaskApi.ConvertFrontendTask` | frontend/api.js:128-134 | title is the text when truthy, otherwise the title field; description defaults to ""; status is "completed" when completed, else the existing status, else "pending", so it is never empty; the payload has no id and no timestamps |
| `TaskApi.RoundTrip` | frontend/api.js:113-134 | backend to frontend and back keeps a non-empty title, reads a missing description as "", and keeps a non-empty status; an empty title comes back missing and an empty status comes back "pending" |
| `TaskApi.PayloadKeepsAgreeingStatus` | frontend/api.js:132 | a task whose status is "pending" or "completed" and agrees with `completed` is sent with that same status |
| `TaskApp.Find` | frontend/task-app.js:131 | the task `find` picks is the first with the id; nothing is found exactly when no task has the id |
| `TaskApp.WithoutId` | frontend/task-app.js:164 | deleting keeps exactly the tasks whose id differs |
| `TaskApp.WithoutIdConcat` | frontend/task-app.js:164 | deleting keeps the remaining tasks in their order |
| `TaskApp.WithoutIdRemovesMatches` | frontend/task-app.js:164 | the kept tasks plus the tasks with the id make up the list as a multiset: every task with the id is removed, counting duplicates |
| `TaskApp.WithoutAbsentId` | frontend/task-app.js:164 | deleting changes the list exactly when some task has the id |
| `TaskApp.AllAgreeUpdate` | frontend/task-app.js:219 | replacing one task by one whose `completed` and `status` agree keeps the whole list agreeing |
| `TaskApp.Flipped` | frontend/task-app.js:134-135 | a toggled task has `completed` negated and the status derived from it; no other field changes |
| `TaskApp.FlipTwice` | frontend/task-app.js:141-142 | the rollback restores `completed` and derives `status` from it; it gives back the original task exactly when the original status was the derived one |
| `Views.View` | frontend/task-app.js:97-104 | "active" shows exactly the unfinished tasks, "completed" exactly the finished ones, and any other filter shows the whole list; frontend/aryan_js.js:61-67 has the same code |
| `Views.ViewConcat` | frontend/task-app.js:98-104 | every view keeps the list order |
| `Views.ViewsPartition` | frontend/task-app.js:100-104 | the "active" and "completed" views split the list: lengths add up, multisets add up, and no task is in both |
| `Views.CompletedCount` | frontend/task-app.js:247-249 | the completed count is at most the total, and the total minus it is the number of active tasks; frontend/aryan_js.js:88-90 counts the same way |
| `TaskApp.TaskStore.constructor` | frontend/task-app.js:2-5 | at load the list is empty, the filter is "all", nothing is being edited, the mode is fallback, and local storage holds what it held before |
| `TaskApp.TaskStore.Init` | frontend/task-app.js:14-27 | remote mode loads the fetched records converted, in order, all agreeing; fallback mode loads the saved list or an empty one; the list and local storage then mirror each other in fallback mode |
| `TaskApp.TaskStore.SaveTasks` | frontend/task-app.js:88-90 | local storage then holds the list in memory |
| `TaskApp.TaskStore.AddTask` | frontend/task-app.js:51-85 | blank input changes nothing and sends nothing; remote mode sends a create request with the trimmed text and appends the converted reply only if there is one; fallback mode appends one pending task with the trimmed text and saves; earlier tasks are unchanged; the mirror and agreement invariants are kept |
| `TaskApp.TaskStore.ToggleTask` | frontend/task-app.js:130-151 | an unknown id changes nothing; otherwise only the first task with the id is flipped; remote mode sends the new status, keeps the flip on success, and on failure restores `completed` with the derived status; fallback mode saves; the invariants are kept |
| `TaskApp.TaskStore.DeleteTask` | frontend/task-app.js:154-173 | a declined confirmation changes nothing and sends nothing; remote mode sends a delete request and removes the tasks with the id only on success; fallback mode removes them and saves |
| `TaskApp.TaskStore.BeginEdit` | frontend/task-app.js:176-180 | marks the id as being edited only when a task has it |
| `TaskApp.TaskStore.SaveEdit` | frontend/task-app.js:207-237 | blank input or an unknown id changes nothing; otherwise only the first task with the id takes the trimmed text and the edit closes; on remote failure its text becomes the untrimmed input and `editingTaskId` is not cleared (the variable is never read); fallback mode saves |
| `TaskApp.TaskStore.CancelEdit` | frontend/task-app.js:240-241 | no task is being edited afterwards |
| `TaskApp.TaskStore.SetFilter` | frontend/task-app.js:43 | the selected filter becomes the button's filter |
| `TaskApp.TaskStore.RenderTasks` | frontend/task-app.js:97-108 | lists the view of the current filter |
| `TaskApp.TaskStore.UpdateStats` | frontend/task-app.js:247-253 | reports the total and the completed count, with completed at most total |
| `LocalOnlyApp.Toggled` | frontend/aryan_js.js:23-26 | toggling keeps length, ids and texts, and flips `completed` on exactly the tasks with the id |
| `LocalOnlyApp.ToggledTwice` | frontend/aryan_js.js:23-26 | toggling the same id twice restores the list |
| `LocalOnlyApp.Retexted` | frontend/aryan_js.js:49-51 | editing keeps length, ids and completion, gives every task with the id the new text, and leaves the others untouched |
| `LocalOnlyApp.Removed` | frontend/aryan_js.js:36 | deleting keeps exactly the tasks whose id differs |
| `LocalOnlyApp.RemovedConcat` | frontend/aryan_js.js:36 | deleting keeps the remaining tasks in their order |
| `LocalOnlyApp.RemovedAbsentId` | frontend/aryan_js.js:36 | deleting changes the list exactly when some task has the id |
| `LocalOnlyApp.LocalTaskList.constructor` | frontend/aryan_js.js:1-2 | the script starts with an empty list and the "all" filter |
| `LocalOnlyApp.LocalTaskList.AddTask` | frontend/aryan_js.js:5-20 | blank input changes nothing; otherwise exactly one unfinished task with the trimmed text is appended, and earlier tasks are unchanged |
| `LocalOnlyApp.LocalTaskList.ToggleTask` | frontend/aryan_js.js:23-29 | the list becomes its toggled form: every task with the id is flipped |
| `LocalOnlyApp.LocalTaskList.DeleteTask` | frontend/aryan_js.js:32-39 | a declined confirmation changes nothing; otherwise every task with the id is removed and the rest keep their order |
| `LocalOnlyApp.LocalTaskList.EditTask` | frontend/aryan_js.js:43-54 | a cancelled or blank answer changes nothing; otherwise every task with the id takes the trimmed answer, with `completed` untouched |
| `LocalOnlyApp.LocalTaskList.SetFilter` | frontend/aryan_js.js:99 | the selected filter becomes the button's filter |
| `LocalOnlyApp.LocalTaskList.RenderTasks` | frontend/aryan_js.js:57-69 | lists the view of the current filter |
| `LocalOnlyApp.LocalTaskList.UpdateStats` | frontend/aryan_js.js:87-90 | reports the total and the completed count, with completed at most total |

## Left out

- Page rendering is not modelled: the HTML templates, `escapeHtml`, the editing markup of `editTask`, `updateStorageInfo`, `showNotification`, `alert`, console logging, focus and selection. Only the state these functions read or set is modelled.
- Clearing the input box after an add (frontend/task-app.js:82, frontend/aryan_js.js:17) is left out, because the input box is part of the page.
- The network functions are not modelled: `apiRequest`, `fetchAllTasks`, `fetchTask`, `createTaskAPI`, `updateTaskAPI`, `deleteTaskAPI` and `checkBackendAvailability`. Their outcomes are parameters. The error messages they report are not modelled.
- Of `saveTasks`, only the "tasks" key of local storage is modelled. The session-storage copy and the "lastSaved" timestamp are left out, because nothing modelled reads them.
- JSON serialisation is treated as lossless. A stored value that does not parse would make `init` throw; this is not modelled.
- The clock and the id source are parameters, because they are outside inputs.
- A `localStorage.setItem` that throws (storage full or disabled) is not modelled. `saveTasks` (frontend/task-app.js:88-93) has no `try`, so the handler would stop with the list already changed and storage stale, which breaks `Mirrored()`. `SaveTasks` always succeeds, and the claim that every handler keeps `Mirrored()` holds only when the save succeeds.
- Asynchronous interleaving is not modelled: each handler runs atomically to completion.
- `saveEdit` reads the text of an edit box that exists only while `editTask` has the task open. If the box is missing, the code throws. The model takes the box's text as a parameter and does not model the missing-box case.
- Ids are modelled as integers. JavaScript's non-integer numbers are left out, because ids come from `Date.now()` or from the backend.
- The registration of event listeners is not modelled. Each listener's effect is modelled as a method instead: `SetFilter` for the filter buttons, `AddTask` for the Enter key.
