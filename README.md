# Routine checklist state manager

A model of the state manager behind the routine checklist page of the
dashboard (`routine.js`). The page keeps three pieces of module state: an
ordered list of task texts, the set of indices checked off today, and an
edit-mode flag. It mirrors the list and the set into the browser's
`localStorage` under keys namespaced by the routine type (`morning_tasks`,
`morning_completed`, `morning_last_reset`, and the same for `evening`).
Completions are cleared when the page starts on a day other than the
stored marker. On first use the routine's
six default tasks are seeded.

Files:

- `text.dfy` (module `Text`): JavaScript's `String.prototype.trim`, with the
  ECMAScript whitespace and line-terminator characters.
- `storage.dfy` (module `Storage`): `localStorage` as a class holding a map
  from keys to decoded values (a task list, a set of indices, a date marker),
  with `getItem`, `setItem` and `removeItem`. It stands for the browser, not
  for the page, so it has no row below.
- `routine.dfy` (module `Routine`): the storage keys, the default lists, pure
  functions for toggling, splicing and renumbering, the class
  `RoutineState` whose fields are the page's state and whose methods are its
  operations, and `Start`, the result of page start-up as a value.
- `routine_properties.dfy` (module `RoutineProperties`): lemmas about those
  functions, start-up and reload, and a few end-to-end scenarios written as
  client methods.

The one real invariant is that every completed index is an index into the
task list (`RoutineState.InRange`). `ToggleTask` with an in-range index,
`DeleteTask`, `SaveEdit` and `AddTask` all preserve it, the delete
renumbering included. Start-up establishes it from any store written by a single open
instance of the page (`Consistent`). A second invariant, `RoutineState.Valid`, says the in-memory
list and set are what the store holds. Every operation keeps it, given that
store writes always succeed, so reloading on the same day reproduces the
state exactly (`ReloadRestores`).

Outside inputs become parameters: "today" (the page's `new
Date().toDateString()`) is a string, the `confirm()` answer of a delete is a
boolean, the routine type is a string restricted to `morning` and `evening`,
and the text of an input field is a string argument.

## Model

| member | source | states |
|---|---|---|
| Text.Trim | routine.js:226 | `trim` returns the slice of its input between two all-whitespace margins, and the result neither starts nor ends with whitespace |
| Text.TrimEmptyIff | routine.js:226-227 | the trimmed text is empty exactly when the input is all whitespace, which is when add and edit do nothing |
| Text.TrimOfTrimmed | routine.js:208 | a text without surrounding whitespace is its own trim |
| Text.TrimIdempotent | routine.js:208 | trimming twice is the same as trimming once |
| Routine.DefaultTasks | routine.js:5-22 | each routine type has six default tasks, each a non-empty text without surrounding whitespace |
| Routine.Toggled | routine.js:159-164 | toggling flips membership of the index and leaves every other index unchanged |
| Routine.Spliced | routine.js:172 | `splice(index, 1)` shortens the list by one when the index is in range. Entries before it keep their positions and entries after it move down by one. An index past the end removes nothing |
| Routine.Renumbered | routine.js:173-184 | after a delete, an index below the deleted one stays, an index above it moves down by one, and the deleted index is gone |
| Routine.RenumberCompleted | routine.js:176-184 | the `forEach` loop that builds `newCompleted` computes exactly the renumbered set |
| Routine.RenumberedInRange | routine.js:173-184 | if every completed index was below the old length, every renumbered index is below the new length |
| Routine.RoutineState.constructor | routine.js:30-49 | start-up gives edit mode off and a state mirrored in the store, and it equals `Start` of the initial store. From a consistent store every completed index is in range |
| Routine.RoutineState.CheckAndResetDaily | routine.js:62-72 | when the stored marker differs from today, the completed key is removed, the marker becomes today and the in-memory set is emptied. On the same day nothing changes |
| Routine.RoutineState.LoadTasks | routine.js:75-84 | a stored list is loaded unchanged. With none stored, the routine's defaults become the list and are written to the store |
| Routine.RoutineState.SaveTasks | routine.js:87-89 | the tasks key holds the current list and no other key changes |
| Routine.RoutineState.LoadCompleted | routine.js:92-97 | a stored completed set is loaded. With none stored, the in-memory set is left as it was |
| Routine.RoutineState.SaveCompleted | routine.js:100-102 | the completed key holds the current set and no other key changes |
| Routine.RoutineState.ToggleTask | routine.js:159-167 | the completed set becomes `Toggled` of the old one and is stored. Tasks are untouched. The range invariant is kept for an index of the list |
| Routine.RoutineState.DeleteTask | routine.js:170-190 | on confirmation, the list becomes `Spliced`, the set becomes `Renumbered`, both are stored, and the range invariant is kept. A declined confirmation changes neither the state nor the store |
| Routine.RoutineState.SaveEdit | routine.js:207-214 | the entry at the index becomes the trimmed input, and the list is stored, only when that text is non-empty and differs from the text the edit started from. Otherwise list and store are unchanged. The completed set is never touched |
| Routine.RoutineState.AddTask | routine.js:225-234 | a non-empty trimmed input is appended as the new last task and stored. An empty one leaves list and store unchanged. The completed set is never touched |
| Routine.RoutineState.ToggleEditMode | routine.js:237-242 | edit mode is negated and nothing else changes |
| Routine.RoutineState.RenderTasks | routine.js:105-156 | `renderTasks` builds, through `createTaskElement` (`CreateTaskElement`), one row per task, in list order. Row `k` shows task `k`, is checked exactly when `k` is completed, and shows the edit and delete buttons exactly in edit mode |
| RoutineProperties.ToggledTwice | routine.js:159-164 | toggling the same index twice restores the completed set |
| RoutineProperties.DeleteKeepsMarksWithTasks | routine.js:170-184 | after a delete, every surviving row keeps both its text and its check mark from the position it had before |
| RoutineProperties.RenumberedFromSurvivors | routine.js:173-183 | every renumbered index comes from a completed index other than the deleted one |
| RoutineProperties.DeleteFirstOfThree | routine.js:170-184 | deleting index 0 of ["A", "B", "C"] with {1, 2} checked leaves ["B", "C"] with {0, 1} checked |
| RoutineProperties.KeysDistinct | routine.js:24-27 | a routine's three keys are distinct from each other and from the other routine's keys |
| RoutineProperties.StartOnNewDay | routine.js:62-97 | starting on a new day always yields an empty completed set, with no stored completions and today as the marker |
| RoutineProperties.StartOnSameDay | routine.js:91-97 | starting on the same day loads the stored completed set, or the empty set if none is stored |
| RoutineProperties.StartSeedsDefaults | routine.js:75-84 | with no stored list, the defaults are loaded and stored. A stored list is loaded as it is |
| RoutineProperties.StartTouchesOnlyOwnKeys | routine.js:24-27 | start-up changes no key outside the routine's namespace |
| RoutineProperties.MorningFirstUse | routine.js:6-13 | a morning routine on an empty store starts with the six morning tasks in order and nothing completed |
| RoutineProperties.PersistedIsConsistent | routine.js:99-102 | a store mirrored by a state whose indices are in range is consistent |
| RoutineProperties.StartInRange | routine.js:91-97 | starting from a consistent store gives completed indices that all index the loaded list |
| RoutineProperties.ReloadRestores | routine.js:86-102 | reloading on the same day reproduces the list, the completed set and the store exactly |
| RoutineProperties.TrimBlank | routine.js:226-227 | the literal input `"   "` trims to the empty text |
| RoutineProperties.TrimSurrounded | routine.js:208 | a text in trimmed form, padded on both sides with any whitespace, trims back to exactly that text |
| RoutineProperties.ToggleTwiceRestores | routine.js:159-167 | toggling a task twice, then edit mode twice, restores tasks, completed set and edit mode, and the rows rendered after equal the rows rendered before |
| RoutineProperties.BlankInputIsIgnored | routine.js:208-211 | for every whitespace-only input and every index of the list, adding the input and committing it as an edit leave the list and the store unchanged |
| RoutineProperties.TwoTabsBreakConsistency | routine.js:159-187 | two tabs that share the store without rereading it, one deleting task 0 of three and the other then toggling index 2, leave a store that is not consistent |
| RoutineProperties.DeleteAndReload | routine.js:170-190 | a session, started and later reloaded by `init`, on ["A", "B", "C"] with {1, 2} checked today that deletes task 0 and reloads sees ["B", "C"] with {0, 1} checked |
| RoutineProperties.ChecksAfterMidnightLost | routine.js:62-72 | a check stored by `toggleTask` next to yesterday's marker is gone when the page next starts on another day |

## Left out

- DOM construction, event-listener wiring, focus and selection, the add form's show/hide toggle, and button labels and classes (routine.js:35-42, 115-156, 199-205, 216-221, 239-240, 245-267) are UI plumbing. What a rendered row shows is kept as `Row`.
- `displayDate` and the `Date` calls (routine.js:55-59, 63) depend on the clock and the locale. "Today" is an opaque string parameter.
- `JSON.stringify` and `JSON.parse` (routine.js:78, 88, 95, 101) are a foreign codec. The store holds decoded values, and the completed set is stored as a set, so the array order in which a Set is written out is not modelled.
- Routine.RoutineState.constructor: requires `WellTyped` of the store, that is, the store holds under the routine's keys the shapes this page writes. Other shapes are not modelled. The code does not reject them: a value that is not JSON makes `JSON.parse` throw (routine.js:78, 95), and a JSON value of the wrong kind may load without a fault (an index array under the tasks key shows as labels, a text array under the completed key becomes a set of strings). Under the tasks key a non-array value faults at `tasks.forEach` (routine.js:108). Under the completed key `null` loads as the empty set and a JSON string loads as the set of its characters (`new Set(...)` at routine.js:95), and any other value that cannot be iterated faults there.
- Routine.RoutineState.constructor: an empty stored string fails the `if (stored)` tests at routine.js:77 and 94 and so falls back like a missing key. The typed store cannot represent an empty stored string, so that case is not modelled.
- Routine.RoutineState.constructor: requires the routine type to be `morning` or `evening`. The code reads it from the script tag (routine.js:2), and with an unknown type and no stored list `[...defaultTasks[routineType]]` throws.
- Routine.RoutineState.constructor: the range invariant is promised only for a store written by a single open instance of the page (`Consistent`). The code does not check stored indices against the stored list.
- Routine.RoutineState.SaveEdit: requires an index of the list. `editTask` reads the row element at that index (routine.js:194-195) and faults without one, and an assignment past the end of a JavaScript array would leave holes, which `seq` cannot express.
- The two commit paths of an edit (Enter, then the blur that re-rendering causes) may both run `saveEdit` with the same text. The second run writes the same value again, so only one commit is modelled.
- `confirm()` (routine.js:171) is the boolean `confirmed` of `DeleteTask`.
- Storage writes are assumed to succeed. `setItem` throws in the browser when the quota is exceeded or storage is disabled. In `toggleTask` (routine.js:160-165), `deleteTask` (routine.js:172-187), `saveEdit` (routine.js:210-211) and `addTask` (routine.js:228-229) the in-memory state has already changed by then, so memory and store would diverge and the rest of the handler would be skipped. Quota and disabled-storage errors are not modelled, and `Valid` holds only because of this assumption.
- A second open tab of the same routine is not modelled. Tabs share `localStorage`, but the page reads it only at start-up (routine.js:45-49) and does not listen for changes made elsewhere. One tab can delete a task while another, still showing the old list, checks an index past the new end: for example, tab A deletes task 0 of ["A", "B", "C"] and tab B then toggles index 2. The resulting store is not `Consistent`, and after a reload the next added task shows as checked. `RoutineProperties.TwoTabsBreakConsistency` states this case.
- An open page is not reset at midnight. `checkAndResetDaily` runs only in `init` (routine.js:45-47) and reads the date once (routine.js:63), so a page left open past midnight keeps showing yesterday's checks, and each toggle there stores the completed set beside yesterday's marker. The next start-up sees a marker other than today and removes those checks (routine.js:66-70). `RoutineProperties.ChecksAfterMidnightLost` states this case.
