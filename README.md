# Login throttle and list handlers, modelled in Dafny

This project models five pieces of one repository of course exercises.

The main piece is the per-IP login throttle of the back end's authentication controller. The controller keeps one process-wide map from client IP to a record `{count, lastAttempt, windowStart}`. Every login attempt runs these steps, in order, with no suspension between them:

1. It looks up the client's record, or creates one with count 0 and both timestamps set to now.
2. It removes the records of other clients idle for more than 10 s.
3. It restarts the count and the window when the 15-minute window or the 10 s idle timeout has expired.
4. It increments the count.
5. It decides on the new count `k`:
   - `k > 5` is refused with HTTP 429;
   - `k` of 4 or 5 without a captcha is refused with HTTP 400;
   - anything else goes on to the credential check.

After the credential check, a failure stamps `lastAttempt` and waits `2^(k-1) * 1000` ms before answering 401. A success deletes the client's record. `resetFailedAttempts` empties the map.

The model has two layers:

- `ThrottlePolicy` (`throttle_policy.dfy`) states the behaviour as pure functions over a snapshot of the table (`map<string, Snapshot>`), and proves its properties as lemmas.
- `LoginThrottle` (`login_throttle.dfy`) is the imperative model: a class `AttemptRecord` whose fields are updated in place, and a class `FailedAttempts` holding the map of record objects. Each of its methods is proved to change the table exactly as the matching `ThrottlePolicy` function says.

A login is split into three steps:

- `BeginAttempt` covers the uninterrupted part before the user lookup.
- `FinishFailure` and `FinishSuccess` are the continuations that run when the credential check reports back.

The continuation after the lookup still has suspension points of its own: the database callback, the password comparison and the delay. But each continuation touches the table exactly once. A failure stamps `lastAttempt`; a success deletes the record. Nothing after that write reads the table. So collapsing each continuation into one step loses no interleaving that matters to the table.

`FinishFailure` writes through the record object that `BeginAttempt` handed out, as the controller's closure does. If that record has left the map in the meantime, the write lands on a detached object and the table does not change.

Two behaviours of the code are kept as written:

- After a window reset, `windowStart` is now but `lastAttempt` keeps its old value. So `windowStart <= lastAttempt` is not an invariant (`WindowStartMayPassLastAttempt`).
- `lastAttempt` is set when a record is created and after a failed credential check, never on a 429 or 400 answer (`RejectionKeepsLastAttempt`, `FailureStampsLastAttempt`).

These behaviours have a consequence that the model proves. Take a client whose record has been idle for more than 10 s. Every attempt it makes restarts the count until one of its failures completes. So a burst of simultaneous attempts from that client is numbered 1 throughout, and every attempt in the burst reaches the credential check without a captcha (`BurstFromIdleRecord`, `BurstFromIdleRecordAllProceed`). In every other case a burst is numbered consecutively:

- from 1 for a client with no record, or for one whose window has expired but which is not idle;
- from the count plus one for a live record.

A burst of two or more attempts is numbered consecutively exactly when the record is not idle (`BurstConsecutiveUnlessIdle`, with `BurstFromNewClient`, `BurstFromExpiredWindow` and `BurstFromLiveRecord`). From a client with no record, at most five attempts of a burst get through (`BurstFromNewClientProceedsAtMostFive`).

The secondary pieces are the state updates of four front-end components:

- `TodoContext` (`todo_context.dfy`) models the task list of the to-do context provider. Its updaters `addTask`, `toggleTask`, `deleteTask` and `loadInitialTasks` select tasks by id.
- `TodoList` (`todo_list.dfy`) models the to-do component with delete buttons. It has the text guard of `addTask` (JavaScript `trim`), `toggleTask(index)` and `eliminar(index)`.
- `TodoListBasic` (`todo_list_basic.dfy`) models the earlier to-do component without delete buttons. It reuses `TodoList`'s definitions, because its handlers are the same expressions.
- `Cafeteria` (`cafeteria.dfy`) models the menu component: adding to and deleting from an order with a running total, and the state changes after submitting. Deleting an id removes every entry with that id but subtracts only the first entry's price. The total therefore stays equal to the sum of the order only when that id occurs once (`DeleteKeepsTotalWhenUnique`, `DeleteOverstatesTotalWhenRepeated`).

The clock, the client IP, whether a captcha was sent, and the credential check's verdict are all parameters. "Captcha present" stands for a truthy `captcha` field, so an empty string counts as absent. Times are integer milliseconds. Prices are integers; see "## Left out" for what that leaves out.

## Model

| member | source | states |
|---|---|---|
| `ThrottlePolicy.Admit` | Ciberseguridad/WebApp-Seguridad-Prog4/backend/src/controllers/authController.js:17-42 | after admission the client always has a record, with count at least 1 |
| `ThrottlePolicy.Evict` | Ciberseguridad/WebApp-Seguridad-Prog4/backend/src/controllers/authController.js:29-33 | the sweep only deletes, keeps the client's own record, and leaves no other client idle for more than 10000 ms (with `AdmitOtherClients`, exactly those are deleted) |
| `ThrottlePolicy.Refresh` | Ciberseguridad/WebApp-Seguridad-Prog4/backend/src/controllers/authController.js:36-39 | the reset keeps `lastAttempt`, restarts the count of a stale record (window over 900000 ms or idle over 10000 ms) and leaves a record that is not stale unchanged; a reset record is still stale at the same instant exactly when it was idle |
| `ThrottlePolicy.AdmitNewClient` | Ciberseguridad/WebApp-Seguridad-Prog4/backend/src/controllers/authController.js:19-42 | a client with no record is admitted as attempt 1, with `lastAttempt = windowStart = now` |
| `ThrottlePolicy.AdmitKnownClient` | Ciberseguridad/WebApp-Seguridad-Prog4/backend/src/controllers/authController.js:36-42 | when the window (over 900000 ms) or the idle timeout (over 10000 ms) has expired, the attempt is number 1, the window starts now and `lastAttempt` is kept; otherwise the count goes up by one and nothing else changes |
| `ThrottlePolicy.AdmitKeepsLastAttempt` | Ciberseguridad/WebApp-Seguridad-Prog4/backend/src/controllers/authController.js:36-42 | admission never changes a known client's `lastAttempt`, and gives a new client `lastAttempt = now` |
| `ThrottlePolicy.AdmitOtherClients` | Ciberseguridad/WebApp-Seguridad-Prog4/backend/src/controllers/authController.js:29-33 | another client keeps its entry exactly when it was idle for at most 10000 ms, and a kept entry is unchanged |
| `ThrottlePolicy.EvictIdempotent` | Ciberseguridad/WebApp-Seguridad-Prog4/backend/src/controllers/authController.js:29-33 | a second sweep at the same instant removes nothing more |
| `ThrottlePolicy.WindowStartMayPassLastAttempt` | Ciberseguridad/WebApp-Seguridad-Prog4/backend/src/controllers/authController.js:36-39 | a record `(2, 0, 0)` admitted at 20000 ms becomes `(1, 0, 20000)`, so its window start lies after its last attempt |
| `ThrottlePolicy.Decide` | Ciberseguridad/WebApp-Seguridad-Prog4/backend/src/controllers/authController.js:45-56 | `k > 5` gives 429 with or without a captcha; `4 <= k <= 5` gives 400 without a captcha and proceeds with one; `k <= 3` proceeds |
| `ThrottlePolicy.DecideMonotone` | Ciberseguridad/WebApp-Seguridad-Prog4/backend/src/controllers/authController.js:45-53 | a higher attempt number is never decided more leniently, and adding a captcha never makes a decision stricter |
| `ThrottlePolicy.ProceedOnlyWithinLimit` | Ciberseguridad/WebApp-Seguridad-Prog4/backend/src/controllers/authController.js:45-56 | an attempt that reaches the credential check has `k <= 5`, and carries a captcha when `k > 3` |
| `ThrottlePolicy.FailureDelayMs` | Ciberseguridad/WebApp-Seguridad-Prog4/backend/src/controllers/authController.js:71 | the delay `2^(k-1) * 1000` is never below 1000 ms |
| `ThrottlePolicy.DelayAtFirstAttempt` | Ciberseguridad/WebApp-Seguridad-Prog4/backend/src/controllers/authController.js:71 | the delay after attempt 1 is 1000 ms |
| `ThrottlePolicy.DelayStrictlyIncreasing` | Ciberseguridad/WebApp-Seguridad-Prog4/backend/src/controllers/authController.js:85 | `j < k` implies a strictly shorter delay for `j` |
| `ThrottlePolicy.DelayOnFailurePathAtMost16s` | Ciberseguridad/WebApp-Seguridad-Prog4/backend/src/controllers/authController.js:45-89 | because only attempts that proceeded can fail, a failure's delay is at most 16000 ms |
| `ThrottlePolicy.LoginStep` | Ciberseguridad/WebApp-Seguridad-Prog4/backend/src/controllers/authController.js:9-101 | one whole login answers 200, 400, 401, 429 or 500; 200 only for verified credentials, and then the client's record is gone, otherwise it is kept; a delay is applied exactly on 401; an attempt that reached the user lookup (200, 401, 500) had an attempt number at most 5; other clients' records are only ever deleted, never changed |
| `ThrottlePolicy.RejectionKeepsLastAttempt` | Ciberseguridad/WebApp-Seguridad-Prog4/backend/src/controllers/authController.js:45-53 | the 429 and 400 answers come without delay, and the client's `lastAttempt` is what it was before the attempt (now, for a new client) |
| `ThrottlePolicy.FailureStampsLastAttempt` | Ciberseguridad/WebApp-Seguridad-Prog4/backend/src/controllers/authController.js:65-89 | a 401 answer sets the admitted record's `lastAttempt` to now and changes nothing else in it; its delay is `FailureDelayMs(k)`, at most 16000 ms |
| `ThrottlePolicy.SuccessRestartsCount` | Ciberseguridad/WebApp-Seguridad-Prog4/backend/src/controllers/authController.js:97-99 | a successful login leaves no record for the client, and its next attempt, at any time, is attempt 1 |
| `ThrottlePolicy.ClearedTableRestartsCount` | Ciberseguridad/WebApp-Seguridad-Prog4/backend/src/controllers/authController.js:152-154 | after the table is emptied, any client's next attempt is attempt 1 |
| `ThrottlePolicy.SequentialScenario` | Ciberseguridad/WebApp-Seguridad-Prog4/backend/src/controllers/authController.js:16-99 | one client's attempts one second apart get 401 after 1000, 2000 and 4000 ms; then 400 without a captcha; then 401 after 16000 ms with one; then 429 even with a captcha and the right password; after more than 10 s of quiet, a fresh attempt 1 that succeeds and removes the record |
| `ThrottlePolicy.BurstFromLiveRecord` | Ciberseguridad/WebApp-Seguridad-Prog4/backend/src/controllers/authController.js:41-42 | attempts admitted back to back on a record whose timers have not expired are numbered consecutively from its count plus one: no increment is lost or duplicated |
| `ThrottlePolicy.BurstFromNewClient` | Ciberseguridad/WebApp-Seguridad-Prog4/backend/src/controllers/authController.js:19-42 | `n` simultaneous attempts from a client with no record are numbered 1 to `n` |
| `ThrottlePolicy.BurstFromExpiredWindow` | Ciberseguridad/WebApp-Seguridad-Prog4/backend/src/controllers/authController.js:36-42 | `n` simultaneous attempts on a record whose window has expired but whose last attempt is at most 10000 ms old are numbered 1 to `n` |
| `ThrottlePolicy.BurstConsecutiveUnlessIdle` | Ciberseguridad/WebApp-Seguridad-Prog4/backend/src/controllers/authController.js:17-42 | a burst of two or more attempts is numbered consecutively exactly when the client has no record or a record idle for at most 10000 ms |
| `ThrottlePolicy.BurstFromNewClientProceedsAtMostFive` | Ciberseguridad/WebApp-Seguridad-Prog4/backend/src/controllers/authController.js:41-56 | of any number of such attempts, whatever captchas they carry, at most five reach the credential check |
| `ThrottlePolicy.BurstFromIdleRecord` | Ciberseguridad/WebApp-Seguridad-Prog4/backend/src/controllers/authController.js:35-42 | every attempt of a simultaneous burst from a client whose record has been idle for more than 10000 ms is numbered 1 |
| `ThrottlePolicy.BurstFromIdleRecordAllProceed` | Ciberseguridad/WebApp-Seguridad-Prog4/backend/src/controllers/authController.js:35-56 | every attempt of such a burst reaches the credential check |
| `LoginThrottle.AttemptRecord.constructor` | Ciberseguridad/WebApp-Seguridad-Prog4/backend/src/controllers/authController.js:20 | a new record has count 0 and both timestamps now |
| `LoginThrottle.FailedAttempts.constructor` | Ciberseguridad/WebApp-Seguridad-Prog4/backend/src/controllers/authController.js:6 | the map starts empty |
| `LoginThrottle.FailedAttempts.EvictIdle` | Ciberseguridad/WebApp-Seguridad-Prog4/backend/src/controllers/authController.js:29-33 | the loop over the entries leaves the table equal to `Evict` of the old one; it deletes only, never changes a surviving entry's object, and never deletes the current client |
| `LoginThrottle.FailedAttempts.RecordFor` | Ciberseguridad/WebApp-Seguridad-Prog4/backend/src/controllers/authController.js:17-22 | returns the client's record object; when there is none, it creates a fresh one and inserts it, and leaves the other entries unchanged |
| `LoginThrottle.FailedAttempts.CountAttempt` | Ciberseguridad/WebApp-Seguridad-Prog4/backend/src/controllers/authController.js:36-42 | resets and increments the record in place; only this client's entry in the table changes, and the method returns the new count |
| `LoginThrottle.FailedAttempts.BeginAttempt` | Ciberseguridad/WebApp-Seguridad-Prog4/backend/src/controllers/authController.js:16-56 | the new table is `Admit` of the old one; the returned record is the client's entry; `k` is its new count; the outcome is `Decide(k, captcha)` |
| `LoginThrottle.FailedAttempts.FinishFailure` | Ciberseguridad/WebApp-Seguridad-Prog4/backend/src/controllers/authController.js:65-89 | sets only `lastAttempt` of the given record; the table changes at the key holding that record and nowhere else, and not at all when the record is detached; returns `FailureDelayMs(k)` |
| `LoginThrottle.FailedAttempts.FinishSuccess` | Ciberseguridad/WebApp-Seguridad-Prog4/backend/src/controllers/authController.js:97-98 | removes the client's entry and nothing else |
| `LoginThrottle.FailedAttempts.ResetFailedAttempts` | Ciberseguridad/WebApp-Seguridad-Prog4/backend/src/controllers/authController.js:152-154 | empties the map |
| `LoginThrottle.FailedAttempts.Login` | Ciberseguridad/WebApp-Seguridad-Prog4/backend/src/controllers/authController.js:9-101 | a login whose steps run back to back leaves the table and gives the reply that `LoginStep` states |
| `TodoContext.Appended` | tdd-todo-integration/react-tdd-vitest-rtl/src/TodoContext.tsx:22-24 | the list grows by exactly one open task `{id, text}` at the end; earlier tasks are unchanged |
| `TodoContext.Toggled` | tdd-todo-integration/react-tdd-vitest-rtl/src/TodoContext.tsx:26-30 | keeps the length and the order; flips `done` of every task with that id and leaves all others identical |
| `TodoContext.Deleted` | tdd-todo-integration/react-tdd-vitest-rtl/src/TodoContext.tsx:32-34 | no task with that id is left; every other task keeps its number of occurrences; the result is a subsequence of the list |
| `TodoContext.ToggleTwiceRestores` | tdd-todo-integration/react-tdd-vitest-rtl/src/TodoContext.tsx:26-30 | toggling the same id twice restores the list |
| `TodoContext.ToggleKeepsIds` | tdd-todo-integration/react-tdd-vitest-rtl/src/TodoContext.tsx:26-30 | toggling changes neither ids nor texts |
| `TodoContext.DeleteAbsentId` | tdd-todo-integration/react-tdd-vitest-rtl/src/TodoContext.tsx:32-34 | deleting an id no task carries leaves the list unchanged |
| `TodoContext.DeleteConcat` | tdd-todo-integration/react-tdd-vitest-rtl/src/TodoContext.tsx:32-34 | deletion distributes over concatenation |
| `TodoContext.DeleteUndoesAppend` | tdd-todo-integration/react-tdd-vitest-rtl/src/TodoContext.tsx:22-34 | deleting the id of a task just added with a fresh id restores the list |
| `TodoContext.DeleteIdempotent` | tdd-todo-integration/react-tdd-vitest-rtl/src/TodoContext.tsx:32-34 | a second deletion of the same id changes nothing |
| `TodoContext.TodoProvider.constructor` | tdd-todo-integration/react-tdd-vitest-rtl/src/TodoContext.tsx:20 | the list starts empty |
| `TodoContext.TodoProvider.AddTask` | tdd-todo-integration/react-tdd-vitest-rtl/src/TodoContext.tsx:22-24 | the list becomes `Appended` of the old one, with the clock reading as id |
| `TodoContext.TodoProvider.ToggleTask` | tdd-todo-integration/react-tdd-vitest-rtl/src/TodoContext.tsx:26-30 | the list becomes `Toggled` of the old one |
| `TodoContext.TodoProvider.DeleteTask` | tdd-todo-integration/react-tdd-vitest-rtl/src/TodoContext.tsx:32-34 | the list becomes `Deleted` of the old one |
| `TodoContext.TodoProvider.LoadInitialTasks` | tdd-todo-integration/react-tdd-vitest-rtl/src/TodoContext.tsx:36-38 | the list becomes exactly the loaded tasks |
| `TodoList.TrimStart` | react-tdd-vitest-todo-list/src/TodoApp.tsx:13 | the result is a suffix of the input; everything dropped is trimmable; the result does not start with a trimmable character |
| `TodoList.TrimEnd` | react-tdd-vitest-todo-list/src/TodoApp.tsx:13 | the result is a prefix of the input; everything dropped is trimmable; the result does not end with a trimmable character |
| `TodoList.Trim` | react-tdd-vitest-todo-list/src/TodoApp.tsx:13 | the result is a contiguous part of the text with only trimmable characters before and after it, and it neither starts nor ends with a trimmable character |
| `TodoList.HasText` | react-tdd-vitest-todo-list/src/TodoApp.tsx:13 | text is accepted exactly when it holds a character that is not JavaScript white space or a line terminator |
| `TodoList.TrimEmptyIffBlank` | react-tdd-vitest-todo-list/src/TodoApp.tsx:13 | the trimmed text is empty exactly when every character is JavaScript white space or a line terminator |
| `TodoList.Appended` | react-tdd-vitest-todo-list/src/TodoApp.tsx:14 | exactly one open task with that text is added at the end; earlier tasks are unchanged |
| `TodoList.ToggledAt` | react-tdd-vitest-todo-list/src/TodoApp.tsx:19-23 | keeps the length; flips `done` at position `index` only |
| `TodoList.RemovedAt` | react-tdd-vitest-todo-list/src/TodoApp.tsx:25-27 | for an index in range, the result is the list without element `index`, the others in order; out of range, the list is unchanged |
| `TodoList.ToggledAtIsUpdate` | react-tdd-vitest-todo-list/src/TodoApp.tsx:19-23 | in range, toggling is the one-element update `tasks[index := flipped]`; out of range, nothing changes |
| `TodoList.ToggleTwiceRestores` | react-tdd-vitest-todo-list/src/TodoApp.tsx:19-23 | toggling the same index twice restores the list |
| `TodoList.RemovedAtLength` | react-tdd-vitest-todo-list/src/TodoApp.tsx:25-27 | the length drops by one exactly when the index is in range |
| `TodoList.RemoveUndoesAppend` | react-tdd-vitest-todo-list/src/TodoApp.tsx:12-27 | deleting the last position right after an addition restores the list |
| `TodoList.TodoApp.constructor` | react-tdd-vitest-todo-list/src/TodoApp.tsx:9-10 | no tasks and an empty input box |
| `TodoList.TodoApp.SetText` | react-tdd-vitest-todo-list/src/TodoApp.tsx:36 | typing replaces the text and leaves the tasks |
| `TodoList.TodoApp.AddTask` | react-tdd-vitest-todo-list/src/TodoApp.tsx:12-17 | non-blank text is appended untrimmed as an open task and the box is cleared; blank text changes neither tasks nor text |
| `TodoList.TodoApp.ToggleTask` | react-tdd-vitest-todo-list/src/TodoApp.tsx:19-23 | the tasks become `ToggledAt` of the old ones; the text is unchanged |
| `TodoList.TodoApp.Eliminar` | react-tdd-vitest-todo-list/src/TodoApp.tsx:25-27 | the tasks become `RemovedAt` of the old ones; the text is unchanged |
| `TodoListBasic.TodoApp.constructor` | tdd-todo-list/react-tdd-vitest/src/TodoApp.tsx:10-11 | no tasks and an empty input box |
| `TodoListBasic.TodoApp.SetText` | tdd-todo-list/react-tdd-vitest/src/TodoApp.tsx:33 | typing replaces the text and leaves the tasks |
| `TodoListBasic.TodoApp.AddTask` | tdd-todo-list/react-tdd-vitest/src/TodoApp.tsx:13-18 | non-blank text is appended untrimmed as an open task and the box is cleared; whitespace-only text changes nothing |
| `TodoListBasic.TodoApp.ToggleTask` | tdd-todo-list/react-tdd-vitest/src/TodoApp.tsx:20-24 | keeps the length and flips position `index` only, through `ToggledAt` |
| `TodoListBasic.ClickTwice` | tdd-todo-list/react-tdd-vitest/src/test/TodoApp.test.tsx:36-42 | clicking a task twice leaves the component's tasks and text as they were |
| `Cafeteria.FindById` | Testing/TP3/cafeteria/src/component/Menu.tsx:36 | finds nothing exactly when no item carries the id; a found item carries the id and is in the list |
| `Cafeteria.FindByIdIsFirst` | Testing/TP3/cafeteria/src/component/Menu.tsx:36 | the found item is at the first position carrying the id |
| `Cafeteria.FoundIffCounted` | Testing/TP3/cafeteria/src/component/Menu.tsx:44-45 | an id is found exactly when at least one entry carries it |
| `Cafeteria.WithoutId` | Testing/TP3/cafeteria/src/component/Menu.tsx:46 | no entry with the id is left; the others keep their multiplicities; the result is a subsequence of the order |
| `Cafeteria.TotalAppend` | Testing/TP3/cafeteria/src/component/Menu.tsx:38-39 | appending an item adds its price to the sum of the order |
| `Cafeteria.TotalWithoutId` | Testing/TP3/cafeteria/src/component/Menu.tsx:46-47 | removing an id takes exactly the prices of all its entries off the sum |
| `Cafeteria.DeleteKeepsTotalWhenUnique` | Testing/TP3/cafeteria/src/component/Menu.tsx:43-49 | when the id occurs once, subtracting the first match's price leaves the total equal to the sum of the filtered order |
| `Cafeteria.DeleteOverstatesTotalWhenRepeated` | Testing/TP3/cafeteria/src/component/Menu.tsx:43-49 | when the id occurs twice or more, all priced positively, the new total exceeds the sum of the filtered order |
| `Cafeteria.Menu.constructor` | Testing/TP3/cafeteria/src/component/Menu.tsx:10-14 | empty menu, empty order, total 0, no message; the total matches the order |
| `Cafeteria.Menu.LoadMenu` | Testing/TP3/cafeteria/src/component/Menu.tsx:25 | stores the menu and leaves the order, the total and the message |
| `Cafeteria.Menu.HandleOrder` | Testing/TP3/cafeteria/src/component/Menu.tsx:35-41 | appends the first menu item with the id and adds its price to the total; an id not on the menu changes nothing; always keeps "total = sum of the order" |
| `Cafeteria.Menu.HandleDelete` | Testing/TP3/cafeteria/src/component/Menu.tsx:43-49 | removes every entry with the id and subtracts the first match's price; an id not in the order changes nothing; keeps "total = sum of the order" when the id occurred at most once |
| `Cafeteria.Menu.BeginSubmit` | Testing/TP3/cafeteria/src/component/Menu.tsx:53-62 | the request carries the order and the total as they are when the submission starts |
| `Cafeteria.Menu.FinishSubmit` | Testing/TP3/cafeteria/src/component/Menu.tsx:64-76 | after the answer, on success: the server's message, an empty order and total 0, whatever the order held by then; on failure: the error message, with order and total kept |
| `Cafeteria.Menu.HandleSubmit` | Testing/TP3/cafeteria/src/component/Menu.tsx:51-76 | with no event in between, sends the order and its total; on success, shows the server's message and leaves an empty order and total 0; on failure, shows the error message and keeps the order and the total |
| `Cafeteria.OrderDuringSubmit` | Testing/TP3/cafeteria/src/component/Menu.tsx:35-76 | an item ordered while the submission is in flight is not in what is sent; after a successful answer the order is empty, so the item is lost; after a failure it stays in the order |

## Left out

- The rest of the authentication controller is not part of this model: `register`, `verifyToken`, `checkUsername`, password hashing, token signing and the database query. The user lookup and password comparison are reduced to a `Verdict` parameter.
- Waiting is not modelled. The delay is returned as a number of milliseconds.
- The clock is the parameter `now`.
- Captcha validity is not modelled; only presence is checked, as in the code.
- Interleaving of logins is modelled at the granularity of `BeginAttempt`, `FinishFailure` and `FinishSuccess`. The user lookup callback, the password comparison and the delay are further suspension points inside a continuation. Each continuation writes the table exactly once and does not read it afterwards, so these points are not modelled separately. The burst lemmas describe attempts admitted before any of them completes.
- A 500 answer from a failed user query is modelled only in `LoginStep` and `Login`. It leaves the record counted and untouched.
- `Math.pow` is floating point; the model uses integer powers of two. For the attempt numbers that can reach the delay (1 to 5) the two agree exactly.
- The route files' `express-rate-limit` configuration and Express wiring are not part of this model. They are library configuration.
- Network I/O is not modelled: loading the menu and the initial tasks with `fetch`, and posting the order. The server's answer to a submitted order is the `SubmitResponse` parameter, and the loaded menu is the argument of `LoadMenu`.
- Rendering, the `useTodos` context check, the card component and the mock servers are not part of this model. They hold no state logic.
- React's batching of state updates is not modelled. The handlers are modelled as if each runs against the state left by the previous one, which holds when the component re-renders between events. Two clicks handled against the same stale render would both read the same `order` and `total`.
- Cafeteria.Menu: prices are JavaScript numbers, that is floating point; the model uses integers. The running total adds each new price on the left of the old total, while `Total` sums the order from its first entry. In floating point the two can differ: ordering 0.1, 0.2 and 0.3 gives a total of 0.6000000000000001 against a sum of 0.6. So `TotalMatches` and the "total = sum of the order" clauses of `HandleOrder` and `HandleDelete` hold only for integer-valued prices whose sums stay below 2^53.
- Cafeteria.Menu: the submission is split at its `await` into `BeginSubmit` and `FinishSubmit`, and `OrderDuringSubmit` shows one event in between. Other events in flight, such as a deletion or a second submission, are not modelled as separate lemmas.
- `TodoContext.TodoProvider.AddTask` takes the clock reading used as the new task's id as a parameter. Two tasks added within the same millisecond would share an id; the model does not exclude this.
