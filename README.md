# Task manager: client task list and task collection route

This project models, in Dafny, the two pieces of a small task-manager web
application that hold real logic:

- the **TaskManager client component** (`components/TaskManager.tsx`), which
  keeps the list of tasks the server has confirmed, the filter the user picked
  (`all`, `pending` or `completed`), the filtered view derived from both and a
  loading flag, and updates the list after each confirmed delete, status
  toggle or creation;
- the **task collection route** (`app/api/tasks/route.ts`), whose `GET`
  lists the signed-in user's tasks newest first and whose `POST` validates a
  create request and stores a new task owned by the signed-in user.

Files:

- `tasks.dfy` (module `Tasks`): the task record with its two-valued status,
  shared by both sides.
- `sequences.dfy` (module `Sequences`): order-preserving selection from a
  sequence (the array `filter` both sides rely on) and its properties.
- `task_manager.dfy` (module `TaskManager`): the list transforms as functions,
  and the component's state as the class `Component`, whose methods apply
  them. The field `filteredTasks` is kept in step with `tasks` and `filter`
  (the effect on lines 44-48): `Component.Valid()` states it, and every method
  that changes the list or the filter re-establishes it.
- `tasks_route.dfy` (module `TasksRoute`): `Get` and `Post` as functions from
  the session, the request body and the store to a response (and, for
  `Post`, the store afterwards).

Inputs that come from outside the code are parameters: the session is an
`Option<UserId>`; the store is `Db`, either `Up(docs)` or `Down` (connecting
or the store call throws); the identifier the store generates and the
creation time are `newId` and `now`; a request body that cannot be parsed, or
that parses to something the handler cannot destructure into fields (such as
`null`), is `None`. On the client, a server round trip is its outcome only:
a flag for delete, an `Option<Task>` (the returned record, or failure) for a toggle, a
`FetchResult` for the first fetch.

Three behaviours of the code worth noting:

- A successful `POST` answers with status 200, the default of the JSON
  response helper.
- A session whose user id is the empty string is turned away with 401, as the
  code's falsiness test does.
- The toggle sends "pending" only when the current status reads exactly
  "completed", and "completed" for any other text.

## Model

| member | source | states |
|---|---|---|
| Tasks.StatusName | components/TaskManager.tsx:14 | a status travels as "pending" or "completed", and reads "completed" exactly for the completed status |
| Sequences.Filter | components/TaskManager.tsx:46 | the selection keeps only elements satisfying the predicate, every satisfying element is kept, and it is never longer than its input |
| Sequences.FilterIndices | components/TaskManager.tsx:55 | the selection is the subsequence at exactly the positions whose element satisfies the predicate, in increasing order |
| TaskManager.FilteredView | components/TaskManager.tsx:44-48 | under "all" the view is the list unchanged; otherwise it holds only, and all, tasks with the selected status |
| TaskManager.FilteredViewInOrder | components/TaskManager.tsx:44-48 | the view is the list restricted to exactly the positions whose task is shown, in the original order |
| TaskManager.ToggledStatus | components/TaskManager.tsx:62-63 | the requested status is pending exactly when the current status reads "completed" |
| TaskManager.ToggleTwiceRestores | components/TaskManager.tsx:62-63 | a toggle always requests the other status, and toggling twice restores either status |
| TaskManager.RemoveById | components/TaskManager.tsx:55 | after a delete no task carries the id, and every task with another id is still there |
| TaskManager.RemoveByIdInOrder | components/TaskManager.tsx:55 | the remaining tasks are exactly those with another id, in their original relative order |
| TaskManager.RemoveAbsentId | components/TaskManager.tsx:55 | deleting an id the list does not hold leaves the list unchanged |
| TaskManager.RemoveByIdIdempotent | components/TaskManager.tsx:55 | deleting the same id twice is the same as deleting it once |
| TaskManager.RemoveByIdCommutesWithView | components/TaskManager.tsx:44-55 | the view of the list after a delete equals the old view with the task removed |
| TaskManager.ReplaceById | components/TaskManager.tsx:72 | a toggle keeps the length, puts the server's record at every matching position and leaves every other entry as it was |
| TaskManager.ReplaceByIdKeepsIds | components/TaskManager.tsx:72 | a record returned under the same id keeps the list's ids in order; an id not in the list changes nothing |
| TaskManager.ToggleMovesOneTaskBetweenCounts | components/TaskManager.tsx:62-72 | toggling a task whose id occurs once moves exactly one task from one status count to the other, and the total stays |
| TaskManager.Prepend | components/TaskManager.tsx:79-81 | after an add the head is the new task and the tail is the previous list |
| TaskManager.CountFor | components/TaskManager.tsx:145 | the "all" count is the length of the list |
| TaskManager.CountsAddUp | components/TaskManager.tsx:145 | each filter's count is the size of its view, and the pending and completed counts sum to the total |
| TaskManager.Component.constructor | components/TaskManager.tsx:20-24 | the component starts with no tasks, filter "all", an empty view and loading on |
| TaskManager.Component.RefreshView | components/TaskManager.tsx:44-48 | the view is recomputed from the list and the filter; nothing else changes |
| TaskManager.Component.FetchTasks | components/TaskManager.tsx:27-38 | loading ends whatever the outcome; a delivered list replaces the tasks, a failure leaves them as they were |
| TaskManager.Component.DeleteTask | components/TaskManager.tsx:51-59 | a confirmed delete removes the id from the list and from the view; a failed one changes nothing |
| TaskManager.Component.ToggleStatus | components/TaskManager.tsx:62-76 | the request carries the opposite status; a confirmed toggle replaces the task with the server's record, a failed one changes nothing |
| TaskManager.Component.AddTask | components/TaskManager.tsx:79-81 | the created task is put at the front of the list and the view follows |
| TaskManager.Component.SetFilter | components/TaskManager.tsx:128 | a filter click changes the filter and the view, never the list |
| TaskManager.Mount | components/TaskManager.tsx:40-42 | after the first fetch loading is off, and a failed fetch leaves the list empty |
| TasksRoute.InsertNewestFirst | app/api/tasks/route.ts:16 | inserting into a newest-first list keeps it newest-first and adds exactly that task |
| TasksRoute.SortNewestFirst | app/api/tasks/route.ts:16 | the store's order is non-increasing in createdAt and a permutation of its input |
| TasksRoute.OwnTasksNewestFirst | app/api/tasks/route.ts:13-17 | the query result is newest-first and holds each of the user's documents exactly as often as the store does, and nothing else |
| TasksRoute.Get | app/api/tasks/route.ts:5-24 | 401 "Unauthorized" without a user id, 500 "Internal server error" when the store fails, otherwise 200 with the user's tasks as a newest-first permutation |
| TasksRoute.GetListsExactlyOwnTasks | app/api/tasks/route.ts:13-17 | a task is listed exactly when it is in the store and owned by the requesting user |
| TasksRoute.GetUnauthorizedIgnoresStore | app/api/tasks/route.ts:7-10 | an unauthenticated GET gives the same 401 whatever the store holds |
| TasksRoute.Post | app/api/tasks/route.ts:26-55 | 401 before the body matters, 500 on an unreadable body or a failing store, 400 "All fields are required" on a blank field; on success one record (pending, owned by the session user, fields from the body, the generated id) is appended and returned; on every failure the store is unchanged |
| TasksRoute.PostIgnoresClientOwnershipFields | app/api/tasks/route.ts:33-46 | a status or userId in the body makes no difference to the outcome |
| TasksRoute.CreatedTaskIsListedForOwner | app/api/tasks/route.ts:39-50 | a created task appears in its owner's next listing |
| TasksRoute.CreatedTaskIsInvisibleToOthers | app/api/tasks/route.ts:15 | a created task changes nothing in any other user's listing |
| TasksRoute.PostKeepsIdsUnique | app/api/tasks/route.ts:48-50 | when the store generates an unused id, a successful create keeps ids unique |

## Left out

- Rendering (the JSX of the component, the task card, the modal, the pages) and the modal's open flag: presentation only.
- `fetch`, reading response bodies, `alert` and `console.error`: network and I/O; only their success or failure outcome is modelled.
- `auth()` and `connectToDatabase()`: their code is not part of this model. The session is an optional user id; a throwing `auth()` (which the handlers would answer with 500) is not modelled.
- The store's internals: it is a sequence of documents; a store failure is `Down` and leaves the documents as they were (an insert is taken to be all-or-nothing). Ties in `createdAt` are ordered by one fixed rule, where the store may pick any order.
- Body fields of a type other than string: a field is either absent or text, so the falsiness test reduces to "absent or empty".
- Date handling: `dueDate` is kept as the submitted text instead of being converted to a date, and `createdAt` is an abstract integer timestamp supplied as `now`.
- Identifier handling: `_id` is an opaque string supplied as `newId`; its conversion to text in the response is not modelled.
- The per-task route (`PATCH` and `DELETE` by id, with its identifier syntax check): app/api/tasks/[id]/route.ts is not part of this model; the client sees only whether those calls succeeded.
- The overdue marker of the task card: it depends on date parsing and the wall clock.
- The deferral of the view update: the component recomputes `filteredTasks` in an effect that runs after the render, so each change to the list or the filter is first rendered with the old view; the model recomputes the view inside each method, so that intermediate render is not captured.
- Overlapping requests and last-response-wins races: the model is sequential, one handler call or one component update at a time.
