# Todo list state machine

A Dafny model of the client-side todo list of a small React todo app. The
app keeps three pieces of state: an ordered list of todos, an id counter
and the text in the input box. Three handlers change it:

- **submit** (`handleSubmit`) trims the input. If nothing is left it does
  nothing. Otherwise it appends a todo whose id is the counter, whose
  description is the trimmed text and which is not completed. It then
  bumps the counter and clears the input.
- **toggle** (`handleToggleCompletion`) flips `completed` on the todos
  carrying the given id.
- **delete** (`handleDelete`) filters out the todos carrying the given id.

Each handler is written as a pure function from one state snapshot to the
next. The files are:

- `text.dfy` (module `Text`): the ECMAScript whitespace set and `Trim`,
  the model of `String.prototype.trim`.
- `todo_list.dfy` (module `TodoList`): the `Todo` record, and `Toggle` and
  `Remove`, the `map` and `filter` the handlers run over the list.
- `app.dfy` (module `App`): the `State` record, the initial state, the
  handlers and the well-formedness invariant `Valid`. `Valid` says that ids
  are distinct, every id lies in `[0, counter)`, and every description is
  non-empty and trimmed.
- `history.dfy` (module `History`): sessions as sequences of user actions,
  the ids handed out during a session, and an abstract model that keeps
  only the set of live ids and that the concrete handlers refine.

## Model

| member | source | states |
|---|---|---|
| Text.SkipLeading | src/App.tsx:33 | the scan stops at the first non-whitespace character, having passed only whitespace |
| Text.SkipTrailing | src/App.tsx:33 | the backward scan stops after the last non-whitespace character, having passed only whitespace |
| Text.Trim | src/App.tsx:33-36 | the trimmed input is a slice of the input with only whitespace cut off on either side; it neither starts nor ends with whitespace; it is empty exactly when the input is all whitespace |
| Text.TrimUnique | src/App.tsx:33-36 | any slice with whitespace-only borders that neither starts nor ends with whitespace is the trim, so the characterisation above determines `trim` completely |
| Text.TrimIdempotent | src/App.tsx:36 | a description stored by submit is unchanged by trimming it again |
| App.Init | src/App.tsx:12-21 | a fresh session has no todos, counter 0 and an empty input |
| App.InitValid | src/App.tsx:12-21 | the initial state satisfies the invariant |
| App.SetInput | src/App.tsx:73 | typing replaces the input and leaves the list and the counter alone |
| App.Submit | src/App.tsx:32-43 | all-whitespace input changes nothing at all; otherwise exactly one todo is appended after the unchanged old list, with the old counter as id, the trimmed input (non-empty, trimmed) as description and `completed` false, the counter grows by one and the input is cleared |
| App.SubmitPreservesValid | src/App.tsx:34-40 | submit keeps ids distinct and below the counter and descriptions non-empty and trimmed |
| App.ToggleCompletion | src/App.tsx:51-57 | toggle keeps the counter, the input, the length, and each position's id and description; the completion at each position is flipped exactly when its id matches |
| App.TogglePreservesValid | src/App.tsx:51-57 | toggle keeps the invariant |
| App.Delete | src/App.tsx:59-61 | delete keeps the counter and the input; the remaining todos are exactly the old ones not carrying the id, in their old relative order, and the list shrinks by the number of todos that carried it |
| App.DeletePreservesValid | src/App.tsx:59-61 | delete keeps the invariant |
| TodoList.SubsequenceDistinct | src/App.tsx:60 | filtering a list with distinct ids leaves a list with distinct ids |
| TodoList.CountId | src/App.tsx:60 | the number of todos carrying an id is zero exactly when no todo carries it |
| TodoList.Toggle | src/App.tsx:52-56 | the mapped list has the same length, ids and descriptions position by position, with completion flipped exactly where the id matches |
| TodoList.ToggleAbsent | src/App.tsx:54 | toggling an id nobody carries leaves the list unchanged |
| TodoList.ToggleFlipsOnlyMatch | src/App.tsx:54 | with distinct ids, toggling the id of one todo changes that todo's completion and nothing else |
| TodoList.ToggleInvolution | src/App.tsx:54 | toggling the same id twice gives back the original list |
| TodoList.ToggleIds | src/App.tsx:52-56 | toggle leaves the set of ids unchanged |
| TodoList.Remove | src/App.tsx:60 | the filtered list holds no todo with the id, holds every other todo of the input and nothing else, keeps their order, and is shorter by the number of matches |
| TodoList.RemoveAbsent | src/App.tsx:60 | deleting an id nobody carries leaves the list unchanged |
| TodoList.RemoveIdempotent | src/App.tsx:60 | deleting the same id twice is the same as deleting it once |
| TodoList.RemoveUniqueShrinksByOne | src/App.tsx:60 | with distinct ids, deleting a present id removes exactly one todo |
| TodoList.CountUnique | src/App.tsx:60 | with distinct ids, an id that some todo carries is carried by exactly one |
| TodoList.RemoveIds | src/App.tsx:60 | the ids left after a delete are the old ids minus the deleted one |
| TodoList.AppendIds | src/App.tsx:39 | appending the new todo adds exactly its id to the set of ids |
| History.RunPreservesValid | src/App.tsx:32-61 | any sequence of typing, submits, toggles and deletes from a well-formed state ends in a well-formed state |
| History.ReachableValid | src/App.tsx:12-61 | every state reachable from the initial state is well formed |
| History.AssignedIsCounterRange | src/App.tsx:35-40 | the ids handed out in a session are the consecutive numbers from the starting counter to the final counter, one per successful submit; deletes never wind the counter back |
| History.AssignedDistinct | src/App.tsx:35-40 | no id is handed out twice in a session |
| History.NoIdReuse | src/App.tsx:35-60 | after any session, the id the next successful submit hands out differs from every id present at the start and every id handed out during the session, deleted or not |
| History.StepRefines | src/App.tsx:32-61 | on the set of live ids each handler acts as the abstract handler: a successful submit adds the counter, a delete removes its id, typing and toggling change nothing |
| History.RunRefines | src/App.tsx:32-61 | after any session the ids present are exactly those the abstract model computes: added by successful submits minus those deleted later |
| History.LiveIdsWereAssigned | src/App.tsx:35-60 | every id present after a session was present at its start or handed out during it |
| History.BuyMilkScenario | src/App.tsx:32-61 | typing "buy milk" and submitting yields one open todo with id 0; toggling it completes it; deleting it then empties the list |

## Left out

- Persistence (src/App.tsx:13-14, 19-20, 23-30): reading and writing the
  list and the counter through `localStorage` and JSON is browser I/O
  through library calls. The model starts from the initial state, or from
  any state satisfying `Valid`. The code does not guard `JSON.parse`
  (src/App.tsx:14, 20), so malformed stored data throws.
- Rendering, the Enter-key handler and the input's `onChange` wiring
  (src/App.tsx:45-49, 63-118) are presentation. The input change is kept
  only as the `SetInput` transition so that sessions can fill the box.
- React update batching: `handleSubmit` reads `input` and `idCounter` from
  the closure of the last render, while the list and counter updates use
  the previous state. The model runs handlers one at a time, each seeing
  the state the previous one produced, which is how separate user events
  are handled.
- `Todo` ids are JavaScript numbers; the model uses unbounded integers and
  does not model the loss of precision above 2^53.
- Strings are sequences of Unicode scalar values rather than UTF-16 code
  units. Every whitespace character ECMAScript trims lies in the Basic
  Multilingual Plane, so trimming agrees with JavaScript for every string
  the model can represent. A JavaScript string holding a lone surrogate
  has no counterpart here.
- The `Todo` type declaration (src/types/todo.ts) is not part of this
  model. `newTodo` (src/App.tsx:34-38) sets only `id`, `description` and
  `completed`, so any other field `Todo` may declare is optional and is
  not modelled.
- The HTTP gateway to the language-model service (server.js,
  simple-server.js, simple-server.ts, src/lib/ai.ts) and the suggestion and
  meme components (src/components/) are network I/O around an external
  service and UI effect code; they are not part of this model.
