# OnTask task-list controller, modelled in Dafny

OnTask is a React Native to-do app backed by a hosted document store. This
project models the part of it with behaviour worth stating: the task-list
handlers of the Home screen (tasks due on the selected calendar day) and the
ViewTasks screen (all of the user's tasks), and the create-task form of the
NewTask screen.

- `Store` — the "tasks" collection as a map from document id to
  `{userId, title, date, complete}`, with the four store calls the screens
  make: query (every selected document once, order left to the store),
  add (fresh id), field update (fails when the document is missing) and
  delete (succeeds when it is missing).
- `TaskList` — the pure list logic both screens share: the optimistic
  `complete` update (`tasks.map(...)`) and its rollback, the
  show/hide-completed filter, the `forEach`/`push` loop that builds the list
  from a query answer, and lemmas tying the list to what a reload returns.
- `Dates` — the Home screen's `formatDate` (the year as `${year}` writes
  it, then a two-digit month and a two-digit day) and a parser it
  round-trips through.
- `Home`, `ViewTasks`, `NewTask` — one class per screen. Its fields are the
  screen's `useState` variables plus the last navigation target. Its methods
  are the screen's handlers, each framed to the fields it sets. The two list
  screens keep one invariant, `Valid()`: no two tasks in the list share an
  id.

The signed-in user (`Option<User>`) and each remote call's outcome
(`Success`/`Failure`) are parameters of the handlers, so both branches of
every `try`/`catch` are stated. The host's `Date.prototype.toDateString` is a
function-valued constant given to the screens and left uninterpreted.

The stored date is `date.toDateString()` (pages/NewTask.js:37), and the
query compares against the same string (pages/Home.js:113). The year-month-day
string from `formatDate` only feeds the calendar widget (pages/Home.js:187).
The edit pop-up's title input has no maximum length, and `handleEdit` writes
an empty title as readily as any other. Only the NewTask form caps titles at 30 characters and rejects the
empty one. When no task is selected for editing (`editTask` is still `''`),
the document reference cannot be built and `handleEdit` ends in its `catch`.
The model treats that as a failed edit.

## Model

| member | source | states |
|---|---|---|
| `Store.Spread` | pages/Home.js:120 | a list entry carries the document's id and exactly its fields |
| `Store.TaskStore.Query` | pages/Home.js:110-117 | a query fails exactly when the call fails; otherwise it lists every document whose fields match the where-clauses, each once, with its stored fields |
| `Store.TaskStore.Add` | pages/NewTask.js:34-39 | a successful add stores the record under an id not used before and changes nothing else; a failed one changes nothing |
| `Store.TaskStore.UpdateComplete` | pages/Home.js:62-63 | the update succeeds exactly when the call succeeds and the document exists, and then changes only that document's `complete` |
| `Store.TaskStore.UpdateTitle` | pages/Home.js:87-88 | the update succeeds exactly when the call succeeds and the document exists, and then changes only that document's `title` |
| `Store.TaskStore.Delete` | pages/Home.js:76 | a successful delete removes the id (present or not); a failed one changes nothing |
| `TaskList.Toggled` | pages/Home.js:55-60 | the optimistic update keeps length, order, ids and every other field; `complete` becomes `v` exactly at the tasks whose id matches |
| `TaskList.ToggledRollback` | pages/Home.js:67-69 | writing `!v` after `v` restores every matching task whose `complete` was `!v` before |
| `TaskList.ClickRollback` | pages/Home.js:228 | with distinct ids, a click passes `!task.complete`, so the rollback gives back exactly the list from before the click |
| `TaskList.ToggledKeepsUniqueIds` | pages/ViewTasks.js:68-73 | the optimistic update keeps distinct ids distinct |
| `TaskList.Visible` | pages/Home.js:222 | the filter is an order-preserving subsequence holding exactly the shown tasks, each as many times as in the list |
| `TaskList.VisibleCases` | pages/ViewTasks.js:156 | with `showComplete` the visible list is the whole list; without it no visible task is complete |
| `TaskList.CheckedOffIsHidden` | pages/Home.js:222-228 | under "hide completed", a task checked off is no longer visible |
| `TaskList.Collect` | pages/Home.js:118-121 | the push loop yields one entry per query document, in answer order, each with that document's id and fields |
| `TaskList.CollectedAnswer` | pages/ViewTasks.js:27-32 | the list built from a query answer has distinct ids and holds exactly the tasks the query selects |
| `TaskList.ToggleAgreesWithReload` | pages/ViewTasks.js:67-78 | after a confirmed toggle, the optimistic list is exactly what a reload from the updated store would return |
| `TaskList.CreatedIsLoaded` | pages/NewTask.js:33-39 | after a create, a reload returns the earlier tasks plus the new one exactly when it matches the query |
| `TaskList.DeletedIsGone` | pages/Home.js:76-78 | after a delete, a reload returns the earlier tasks less the deleted id |
| `TaskList.HideCompletedScenario` | pages/ViewTasks.js:156-161 | an open task A and a done task B show as `[A]` when hiding completed tasks, and as `[]` once A is checked off |
| `Dates.NatToString` | pages/Home.js:146-147 | a non-negative number is written as at least one digit, without a leading zero |
| `Dates.IntToString` | pages/Home.js:148-149 | a year is written as digits, with a leading '-' when negative |
| `Dates.ParseNatToString` | pages/Home.js:146 | the decimal text of a number reads back as that number |
| `Dates.ParseIntToString` | pages/Home.js:149 | the year's text reads back as the year |
| `Dates.Last2` | pages/Home.js:146 | `slice(-2)` keeps the last two characters, or all of a shorter string |
| `Dates.Pad2` | pages/Home.js:146-147 | `('0' + n).slice(-2)` is always two characters; below 100 they are two digits reading back as the number, with a leading '0' exactly below 10 |
| `Dates.FormatDate` | pages/Home.js:145-150 | `formatDate` reads back as year, `month0 + 1` and day: the year as `${year}` writes it (four digits only for years 1000 to 9999, a '-' before negative ones), then a two-digit month and a two-digit day |
| `Dates.FormatDateInjective` | pages/Home.js:187 | distinct dates give the calendar distinct strings |
| `Home.HomeScreen.constructor` | pages/Home.js:17-22 | the screen starts on the given day with an empty list, completed tasks hidden, no pop-up and an empty title |
| `Home.HomeScreen.FetchTasks` | pages/Home.js:108-132 | no user: list kept, go to Auth; query fails: list kept; otherwise the list is exactly the user's tasks whose date is `toDateString(userDate)`, ids distinct |
| `Home.HomeScreen.HandleCheckboxChange` | pages/Home.js:54-71 | success: list and store both hold `complete == newValue` for the id; failure: store unchanged and, for a click on a listed task, the list is as before; the list's ids stay distinct |
| `Home.HomeScreen.HandleDelete` | pages/Home.js:74-82 | failure: store, list and navigation unchanged; success: id gone from the store and, after a successful reload, from the list |
| `Home.HomeScreen.HandleEdit` | pages/Home.js:85-97 | success: the document's title becomes the typed title (no emptiness check), pop-up closed, edit state cleared, list reloaded; failure: nothing changes |
| `Home.HomeScreen.ShowCompleteTasks` | pages/Home.js:44-46 | completed tasks are shown |
| `Home.HomeScreen.HideCompleteTasks` | pages/Home.js:49-51 | completed tasks are hidden |
| `Home.HomeScreen.OnBlur` | pages/Home.js:138-140 | leaving the screen hides completed tasks |
| `Home.HomeScreen.HandleDayPress` | pages/Home.js:37-41 | a new day is selected, completed tasks are hidden again and the list is reloaded for that day |
| `Home.HomeScreen.HandleNewTask` | pages/Home.js:25-28 | goes to NewTask and resets the selected day to today |
| `Home.HomeScreen.HandleViewTasks` | pages/Home.js:31-34 | goes to ViewTasks and resets the selected day to today |
| `Home.HomeScreen.OpenEdit` | pages/Home.js:241-244 | the pressed task becomes the edited one and the pop-up opens |
| `Home.HomeScreen.CancelEdit` | pages/Home.js:281-285 | the pop-up closes with edit task and title cleared |
| `Home.HomeScreen.SetTitle` | pages/Home.js:270 | the pop-up's title is whatever was typed, with no length cap |
| `Home.HomeScreen.VisibleTasks` | pages/Home.js:222 | the rendered list is an order-preserving subsequence of the tasks holding exactly the shown ones; all of them when showing completed |
| `ViewTasks.ViewTasksScreen.constructor` | pages/ViewTasks.js:13-17 | the screen starts with an empty list, completed tasks hidden, no pop-up and an empty title |
| `ViewTasks.ViewTasksScreen.FetchTasks` | pages/ViewTasks.js:19-41 | no user: list kept, go to Auth; query fails: list kept; otherwise the list is exactly the user's tasks, every date included |
| `ViewTasks.ViewTasksScreen.HandleCheckboxChange` | pages/ViewTasks.js:67-85 | success: list and store both hold `complete == newValue` for the id; failure: store unchanged and, for a click on a listed task, the list is as before; the list's ids stay distinct |
| `ViewTasks.ViewTasksScreen.HandleDelete` | pages/ViewTasks.js:87-95 | failure: store, list and navigation unchanged; success: id gone from the store and, after a successful reload, from the list |
| `ViewTasks.ViewTasksScreen.HandleEdit` | pages/ViewTasks.js:97-109 | success: title written, pop-up closed, edit state cleared, list reloaded; failure: nothing changes |
| `ViewTasks.ViewTasksScreen.ShowCompleteTasks` | pages/ViewTasks.js:59-61 | completed tasks are shown |
| `ViewTasks.ViewTasksScreen.HideCompleteTasks` | pages/ViewTasks.js:63-65 | completed tasks are hidden |
| `ViewTasks.ViewTasksScreen.OnBlur` | pages/ViewTasks.js:46-48 | leaving the screen hides completed tasks |
| `ViewTasks.ViewTasksScreen.Back` | pages/ViewTasks.js:111-113 | goes to Home |
| `ViewTasks.ViewTasksScreen.HandleNewTask` | pages/ViewTasks.js:115-117 | goes to NewTask |
| `ViewTasks.ViewTasksScreen.OpenEdit` | pages/ViewTasks.js:170-173 | the pressed task becomes the edited one and the pop-up opens |
| `ViewTasks.ViewTasksScreen.CancelEdit` | pages/ViewTasks.js:195-199 | the pop-up closes with edit task and title cleared |
| `ViewTasks.ViewTasksScreen.SetTitle` | pages/ViewTasks.js:187 | the pop-up's title is whatever was typed, with no length cap |
| `ViewTasks.ViewTasksScreen.VisibleTasks` | pages/ViewTasks.js:156 | the rendered list is an order-preserving subsequence of the tasks holding exactly the shown ones; no completed task when hiding |
| `NewTask.NewTaskScreen.constructor` | pages/NewTask.js:13-14 | the form starts with an empty title and today's date |
| `NewTask.NewTaskScreen.SetTitle` | pages/NewTask.js:66 | the title input holds at most 30 characters |
| `NewTask.NewTaskScreen.HandleDateChange` | pages/NewTask.js:24-26 | the picked date becomes the task date |
| `NewTask.NewTaskScreen.HandleCancel` | pages/NewTask.js:17-21 | goes to Home, clears the title and resets the date, with no store write |
| `NewTask.NewTaskScreen.HandleNewTask` | pages/NewTask.js:29-51 | empty title: no write, no navigation; no user: no write, go to SignIn; success: exactly one new record `{uid, title, toDateString(date), false}` under a fresh id, others untouched, go to Home; failure: no write, no navigation |

## Left out

- Rendering, styles, screen-size arithmetic, fonts and images are presentation only.
- The sign-in, sign-up and auth screens, sign-out (pages/Home.js:100-105) and the navigator wiring are calls into the authentication service and navigation library. The signed-in user is a parameter.
- `handleDayPress`'s time-zone adjustment (pages/Home.js:38-39) and `toDateString()` depend on the host's date and locale implementation. The adjusted date is a parameter and `toDateString` is uninterpreted. A date is its year, month and day fields only.
- The query's `orderBy("date", "asc")` is applied by the store to an uninterpreted string. The model leaves the order of a query answer to the store.
- Handlers are modelled as running to completion one at a time. Overlapping toggles and the stale read of `tasks` at pages/Home.js:55 are left out. The reloads that `handleDelete` and `handleEdit` start without awaiting them are treated the same way.
- `console.log`, `console.error` and `alert` are left out. Navigation is the last target the screen navigated to.
- Store failures are one `Failure` outcome per call. A missing document makes an update fail. A delete of a missing document succeeds.
- `Home.HomeScreen.HandleDayPress` assumes the screen has focus when a day is pressed, so the focus effect's cleanup and reload follow the date change.
