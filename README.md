# To-do task store of the mood page, in Dafny

The page script `main.js` keeps a personal to-do list in two module-level
variables, the `tasks` array and the `taskIdCounter` integer, and persists
it in the browser's IndexedDB database `TaskMoodApp`. That database holds an
object store `tasks` keyed by each record's `id` and an object store
`counters` whose record `taskId` holds the next id to hand out. Three handlers
change the list: `addTask`, `toggleTask` and `deleteTask`. Each awaits its
store requests one after another. When a request is rejected, the handler
compensates in memory and logs the error. At start-up, `initializeApp` opens
the database, then loads the counter, then loads the tasks.

This project models that part of the script:

- `text.dfy`, module `TaskText`: `String.prototype.trim` with the ECMAScript
  whitespace and line-terminator characters, and its properties.
- `records.dfy`, module `TaskRecords`: the task record, the in-place flag flip,
  `find` by id and `filter` by id on the list, and the agreement of the list
  with the counter.
- `store.dfy`, module `TaskStore`: class `Database`, the durable store that
  outlives a page: a map from id to record plus an optional counter record.
  Each request takes an `ok` flag saying whether the backend accepts it.
  `getAll` lists records in ascending key order, as IndexedDB object stores
  do. A ghost log records every write that reached the store, in order,
  including the counter seed written by the first open.
- `app.dfy`, module `TodoApp`: class `App`, one page load of the script. It
  holds the module-level `db` handle (whether this page opened the
  database), `tasks` and `taskIdCounter`. It also holds the request wrappers
  `saveTask`, `deleteTaskFromDB`, `saveTaskCounter`, `loadTasks` and
  `loadTaskCounter`. While the handle is unset, each wrapper throws and
  rejects without reaching the store. `App` also has the start-up load and
  the three handlers. Each handler follows the source's compensation path
  step by step. A page reload is a new `App` over the same `Database`, so
  it starts with no handle.
- `scenarios.dfy`, module `TodoScenarios`: whole sessions that start from a
  profile in which the app never ran.

The central invariant is `App.Consistent`. It says the list shows exactly
the stored records with no id twice, the counter in memory equals the stored
counter, and every stored id is below the counter. Start-up establishes it
when the store satisfies it. `toggleTask` and `deleteTask` preserve it
whatever the store answers. `addTask` preserves it in every case but one.

That one case is modelled as written and not corrected. If `saveTask`
succeeds and `saveTaskCounter` is then rejected, the catch block moves the
counter back down. The record stays stored, but it is not in the list.
The next task gets the same id, and the store's upsert overwrites that
record. `App.AddTask` states this outcome: afterwards the counter's value is
already a stored key. `TodoScenarios.RejectedCounterSaveThenReload` goes on to
reload the page and add again. The page then shows two tasks with id 0.
The id is drawn from the counter (main.js:274), and the catch block's
rollback (main.js:289-290) is meant to undo a failed creation. It does not
remove the record that was already saved, and the model keeps that.

## Model

| member | source | states |
|---|---|---|
| TaskText.IsWhitespace | main.js:270 | the characters `trim` removes: the ASCII space, tab, line feed and carriage return are among them, and no ASCII letter or digit is |
| TaskText.SkipLeading | main.js:270 | the position it returns ends a blank run that starts at the given position, and holds a non-whitespace character unless it is the end |
| TaskText.SkipTrailing | main.js:270 | the position it returns starts a blank run up to the given end, and follows a non-whitespace character unless it is the lower bound |
| TaskText.Trim | main.js:270-272 | the trimmed text is empty exactly when the input is all whitespace; otherwise it starts and ends with a non-whitespace character |
| TaskText.TrimInfix | main.js:270 | the trimmed text is a slice of the input, and everything cut off before and after it is whitespace |
| TaskText.TrimUnpadded | main.js:270 | text that starts and ends with a non-whitespace character is accepted unchanged |
| TaskText.TrimIdempotent | main.js:270 | trimming twice gives the same text as trimming once |
| TaskRecords.Flip | main.js:304 | the toggled record has the opposite `completed` flag and the same `id`, `text` and `createdAt` |
| TaskRecords.FlipTwice | main.js:304-313 | flipping back after a rejected save restores the record exactly |
| TaskRecords.IdsFreshAppend | main.js:274-283 | appending a task that carries the counter's value and moving the counter up keeps every id below the counter and all ids distinct |
| TaskRecords.FindIndex | main.js:302 | `find` yields nothing exactly when no entry has the id; otherwise the position of the first entry that has it |
| TaskRecords.Without | main.js:321 | the filtered list has no entry with the id, keeps every entry with another id, and adds nothing |
| TaskRecords.WithoutAppend | main.js:321 | filtering distributes over concatenation, so the kept entries stay in their original order |
| TaskRecords.WithoutSingle | main.js:321 | a one-entry list loses its entry exactly when the entry has the id |
| TaskRecords.WithoutAbsent | main.js:321 | filtering out an id that no entry has leaves the list unchanged |
| TaskRecords.WithoutKeepsDistinct | main.js:321 | filtering keeps the ids pairwise distinct |
| TaskStore.CounterOrZero | main.js:96 | the counter `loadTaskCounter` adopts is the value of the `taskId` record, or 0 when there is no such record |
| TaskStore.LeastKeyExists | main.js:68 | every non-empty finite set of ids has a least element |
| TaskStore.InKeyOrder | main.js:68 | `getAll` lists each stored record exactly once, under its own key, in ascending key order |
| TaskStore.LeastFirstRecords | main.js:68 | the record under one key, followed by a listing of the other records, lists all the records |
| TaskStore.LeastFirstAscending | main.js:68 | when that key is the least, the combined listing is in ascending key order |
| TaskStore.PutThenList | main.js:57-68 | after an upsert the listing contains the saved record and every record under another key |
| TaskStore.Database.constructor | main.js:9-12 | a profile in which the app never ran has no object stores, no records, no counter record and no writes |
| TaskStore.Database.Open | main.js:15-50 | an accepted first open creates the stores and seeds the counter with 0, logging that write; a later open keeps the stored data; a rejected open changes nothing |
| TaskStore.Database.Put | main.js:57 | an accepted `put` upserts the record under its id and logs the write; a rejected one changes nothing |
| TaskStore.Database.GetAll | main.js:68 | an accepted `getAll` returns every stored record, each once, in ascending key order |
| TaskStore.Database.Delete | main.js:82 | an accepted `delete` removes the key, and succeeds even when the key is absent; a rejected one changes nothing |
| TaskStore.Database.GetCounter | main.js:93 | an accepted `get` returns the counter record, which may be absent |
| TaskStore.Database.SetCounter | main.js:107 | an accepted `put` overwrites the counter record and logs it; a rejected one changes nothing |
| TodoApp.MirrorsLoaded | main.js:71 | a freshly loaded list shows exactly the stored records, with distinct ids |
| TodoApp.MirrorsAppend | main.js:281-283 | saving a record under an unused id and appending it keeps the list and the store in step |
| TodoApp.MirrorsUpdate | main.js:304-307 | replacing a listed record, in the list and in the store, by one with the same id keeps the two in step |
| TodoApp.MirrorsRemove | main.js:320-321 | deleting an id from the store and filtering it out of the list keeps the two in step |
| TodoApp.App.constructor | main.js:4-8 | a page load starts with the `db` handle unset, an empty list and the counter at 0, whatever the store holds |
| TodoApp.App.SaveTask | main.js:53-62 | with the handle set and the request accepted, the record is upserted under its id; otherwise the store is unchanged |
| TodoApp.App.DeleteTaskFromDB | main.js:78-87 | with the handle set and the request accepted, the key is removed; otherwise the store is unchanged |
| TodoApp.App.SaveTaskCounter | main.js:103-112 | with the handle set and the request accepted, the stored counter becomes the current `taskIdCounter`; otherwise it is unchanged |
| TodoApp.App.LoadTaskCounter | main.js:89-101 | with the handle set and the read accepted, the counter becomes the stored value, or 0 when none is stored; otherwise it is unchanged |
| TodoApp.App.LoadTasks | main.js:64-76 | with the handle set and the read accepted, the list becomes every stored record in key order; otherwise it is unchanged |
| TodoApp.App.Initialize | main.js:352-375 | open, which sets the handle, then load the counter, then load the tasks, stopping at the first rejection; each completed step leaves its effect; a full start over a store whose ids are below its counter is consistent |
| TodoApp.App.AddTask | main.js:268-293 | blank input changes nothing and sends no request; full success appends one task with the old counter as id, the trimmed text and `completed` false, moves the counter up by one, saves the task and then the counter, and clears the input; any rejection leaves the list, the counter and the stored counter as they were, and keeps the task record stored when only the counter save failed; ids stay below the counter and distinct; consistency is kept except after a rejected counter save, which leaves a stored record under the next id |
| TodoApp.App.ToggleTask | main.js:301-316 | an unlisted id changes nothing and sends no request; otherwise an accepted save flips the first matching task's flag in the list and in the store, and a rejected one leaves both as they were; consistency is kept |
| TodoApp.App.DeleteTask | main.js:318-327 | an accepted delete removes the key from the store and filters the id out of the list; a rejected one changes neither; an id that is in neither stays a no-op; ids stay below the counter and distinct; consistency is kept |
| TodoScenarios.AddToggleDeleteAdd | main.js:268-327 | add "Buy milk", toggle it, delete it, add "Walk dog": the tasks get ids 0 and 1, and the deleted id is not handed out again |
| TodoScenarios.AddBlank | main.js:270-272 | whitespace-only input creates no task and leaves the counter at 0 |
| TodoScenarios.ReloadWithRejectedOpen | main.js:352-356 | after a reload whose open is rejected, the handle is unset, so adding a task is rejected: nothing is shown, the box is not cleared, and the store keeps the first session's task |
| TodoScenarios.RejectedCounterSaveThenReload | main.js:280-291 | a rejected counter save after an accepted task save shows nothing; after a reload the next add reuses id 0, and the page shows two tasks with id 0 |

## Left out

- Rendering (`renderTasks`), the sidebar and the outside-click handler: they only write to the page.
- Mood switching, the mood table, video and audio playback, and the particle animation (`createParticles`): they are presentation and media, and use randomness and floating point.
- `handleKeyPress`: it only calls `addTask` when Enter is pressed.
- IndexedDB internals: transactions, the `completed` index, request callbacks, and the version-upgrade path for a database that exists but lacks a store. Each request is one step that the backend accepts or rejects as a whole.
- Asynchrony: each handler call is modelled as running to completion, with each `await` as one sequential step. The handlers are `async` and yield at each `await`, so a second Enter press during an add can start another add. Interleavings at `await` points are not modelled.
- The `createdAt` timestamp: it is a parameter of `App.AddTask`, kept as an opaque string.
- Console logging in the catch blocks.
- The text box: `App.AddTask` takes its value as a parameter and returns whether the box is cleared.
- JavaScript numbers: the id counter is an unbounded integer, so precision loss beyond 2^53 is not modelled.
- Object identity: the list holds record values. In the script, the toggled object is shared only by the list, and the store keeps its own copy, so nothing observable depends on identity.
- TaskStore.Database.Open: a database whose `db` handle was set by the upgrade before a failed open is treated as unopened.
