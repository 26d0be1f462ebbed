# To-do view state machine

This project models the core of a React to-do application: the `App`
component of `src/App.tsx`. The component keeps a visible list of todos, a
"something is completed" flag and an active count derived from the last
fetched list, a filter, one error slot, a request counter, the title being
typed, an add-in-progress flag, a placeholder todo, and the ids of the todos
being deleted. The flag and the placeholder are set on submit and cleared by
the next successful refresh, which may come before or after the post settles.
User intents and the outcomes of server calls move it from state to state. A
changed request counter (or filter) makes it fetch the whole list again.

- `todos.dfy`, module `Todos`: the values and pure derivations. This covers the
  todo record (`id == 0` stands for a missing id), the filter modes and error
  kinds, the filter predicate, the visible selection `Select`, `HasCompleted`,
  `ActiveCount`, the footer test and the ids a bulk delete marks. `Positions`
  is a reference definition by index. The lemmas prove that the selection is
  the ordered subsequence of exactly the matching todos.
- `app.dfy`, module `TodoApp`: class `App` holds the component's state fields,
  with one method per intent and per server outcome. `State()` gathers the
  stored fields into one `ViewState` value. Each method's contract gives the
  whole new state as an update of the old one, so it names exactly the fields
  the transition touches. Two ghost fields, the last fetched list and the filter
  it was selected under, let `Valid()` state the invariant. Only a successful refresh changes them; every other method promises to keep both. The visible list,
  the completed flag and the active count are derived from that list. The
  add-in-progress flag is set exactly when a placeholder (id 0, not completed,
  non-empty title) is shown. Both are set on submit and cleared by the next
  successful refresh, which may come before or after the post settles.
- `scenarios.dfy`, module `Scenarios`: client runs that use only the
  contracts. They cover one active and one completed todo under `Active`, a
  filter change that keeps the last fetched list until the next refresh, a
  submit with no user, a failed add, and clearing completed todos 3 and 7. They
  also show that clearing the error twice ends where clearing it once does.

Calls to the server and the session become parameters and return values. The
user is an `Option<User>` argument to each guarded intent. Fetched lists and
ok/fail flags are arguments of the settling methods. The request a method would
send is its return value (`posted`, `deleted`, `request`).

Two behaviours of the code are easy to miss, and the model keeps both. First, the list fetched by a refresh is filtered under the
filter that was in force when that refresh was issued. The effect's callback
captured it (src/App.tsx:107-117), so `RefreshStart` returns the mode and
`RefreshOk` takes it back. Second, the ids being deleted form a list that
appending can extend with duplicates, not a set (src/App.tsx:77).

## Model

| member | source | states |
|---|---|---|
| Todos.Matches | src/App.tsx:34-43 | `All` (the default branch) keeps every todo; `Completed` keeps a todo exactly when it is completed, `Active` exactly when it is not |
| Todos.Select | src/App.tsx:32-44 | the selection is no longer than the input, and every selected todo comes from the input and matches the mode |
| Todos.SelectIsOrderedSelection | src/App.tsx:33-44 | the selection lists the input at strictly increasing positions, and those positions are exactly the ones whose todo matches the mode (Active: not completed, Completed: completed) |
| Todos.SelectAllIsIdentity | src/App.tsx:41-42 | under the default branch (`All`) the selection is the whole list, unchanged |
| Todos.SelectKeepsMatches | src/App.tsx:33-44 | every matching todo of the input appears in the selection |
| Todos.HasCompletedIffSelection | src/App.tsx:112 | "some todo is completed" holds exactly when the completed selection is non-empty |
| Todos.HasCompleted | src/App.tsx:112 | the `some` test holds exactly when some todo of the list is completed, and never for an empty list |
| Todos.ActiveCount | src/App.tsx:113 | the number of todos not completed never exceeds the list's length |
| Todos.ActiveCountPartition | src/App.tsx:112-113 | the active count plus the number of completed todos is the list's length |
| Todos.AllActiveIffNoneCompleted | src/App.tsx:112-113 | the active count equals the length exactly when no todo is completed |
| Todos.FooterVisibleIffNonEmpty | src/App.tsx:144 | with the active count and completed flag derived from a list, the footer condition holds exactly when that list is non-empty |
| Todos.FooterVisible | src/App.tsx:144 | for a non-negative active count, the truthiness test `activeCount \|\| hasCompleted` holds exactly when the count is positive or something is completed |
| Todos.DeleteIds | src/App.tsx:89 | one id per fetched todo, in order, a missing id being 0 |
| Todos.DeleteIdsOfCompleted | src/App.tsx:87-91 | if the server answers with the completed part of a list, the ids marked are exactly that list's completed ids |
| TodoApp.App.constructor | src/App.tsx:19-28 | the initial state: empty list, no completed, zero active, `All`, no error, counter 0, empty title, not adding, no placeholder, nothing being deleted; the invariant holds |
| TodoApp.App.FooterShown | src/App.tsx:144 | in a valid state the footer shows exactly when the last fetched list is non-empty |
| TodoApp.App.TitleChange | src/App.tsx:132 | only the title changes |
| TodoApp.App.SetFilter | src/App.tsx:148 | only the filter changes |
| TodoApp.App.DismissError | src/App.tsx:30 | only the error changes, to none |
| TodoApp.App.ErrorTimeout | src/App.tsx:119-123 | only the error changes, to none |
| TodoApp.App.AddIntent | src/App.tsx:49-66 | with no user or an empty title nothing changes and nothing is posted; otherwise the error is cleared, adding is set, the placeholder `{id 0, user's id, title, not completed}` is shown and exactly that todo is posted; nothing else changes |
| TodoApp.App.AddSettled | src/App.tsx:67-70 | success clears the title, failure sets `Add`, either way the counter goes up by exactly one; nothing else changes |
| TodoApp.App.RemoveIntent | src/App.tsx:74-79 | with no user nothing changes and nothing is sent; otherwise the error is cleared and the id is appended with all earlier ids kept, and that id's delete is sent |
| TodoApp.App.RemoveSettled | src/App.tsx:79-81 | failure sets `Delete`, either way the counter goes up by exactly one; nothing else changes |
| TodoApp.App.ClearIntent | src/App.tsx:85-87 | the completed list is requested for the user's id exactly when there is a user; no state changes, so an existing error stays |
| TodoApp.App.ClearFetched | src/App.tsx:88-95 | the ids being deleted become exactly the fetched ids in order, and one delete per id is sent; nothing else changes |
| TodoApp.App.ClearSettled | src/App.tsx:95-97 | a failed fetch or any failed delete sets `Delete`, otherwise the error is kept; the counter goes up by exactly one whatever the number of deletes |
| TodoApp.App.RefreshStart | src/App.tsx:107-109 | the list is requested for the user's id under the current filter exactly when there is a user; no state changes |
| TodoApp.App.RefreshOk | src/App.tsx:101-114 | the visible list becomes the selection of the fetched list under the request's filter, `hasCompleted` holds iff some fetched todo is completed, the active count plus the completed count is the fetched length, and adding, placeholder and ids being deleted are cleared; the footer shows iff the list is non-empty; filter, error, counter and title are kept |
| TodoApp.App.RefreshFail | src/App.tsx:115 | the error becomes `Unexpected`; all other fields, including the visible list, the completed flag, the active count, the placeholder and ids being deleted, are kept |
| Scenarios.ActiveFilterScenario | src/App.tsx:107-114 | for user 42 with todos 1 (active) and 2 (completed) under `Active`: one todo visible, active count 1, something completed, footer shown |
| Scenarios.FilterChangeKeepsFetchedList | src/App.tsx:107-117 | after a refresh and a filter change, the last fetched list and its filter are kept and the visible list is still its selection under that filter, until the next refresh |
| Scenarios.AddWithoutUser | src/App.tsx:52 | submitting without a user posts nothing and leaves the state as it was |
| Scenarios.FailedAdd | src/App.tsx:67-70 | after a failed add and a successful refresh the error is `Add`, no placeholder remains and adding is off |
| Scenarios.ClearCompletedScenario | src/App.tsx:85-97 | the completed list is requested for the user, ids 3 and 7 are marked at once, the counter goes up exactly once over the whole run, and after a refresh whose list has no completed todo none is visible and nothing is marked |
| Scenarios.ErrorClearIsIdempotent | src/App.tsx:30 | closing the error twice, then letting the timer fire, ends in the state that clearing once gives |

## Left out

- Rendering: the JSX and the `Header`, `ToDoList`, `Footer` and `ErrorMessage` components (src/App.tsx:125-157) are presentation. Only the footer condition of line 144 is kept, as `FooterVisible` and `App.FooterShown`.
- The server client module `./api/todos` and the session context `AuthContext` are not part of this model. Their results are parameters: an optional user, fetched lists and ok/fail flags.
- Promise scheduling and `setTimeout` timing: each completion, and the timer firing, is one discrete method call that may happen at any point. Real time is not modelled. Neither is the interleaving inside one callback chain.
- `Promise.all` rejects as soon as the first delete fails, so the counter step can come before the other deletes settle. `ClearSettled` is one event that sees every outcome at once.
- React effect triggering: the changed filter or counter that starts a refresh, and the cleanup effect that runs because the visible list is a new array. Starting a refresh is the caller's `RefreshStart`. The cleanup is part of `RefreshOk`, applied at once.
- `e.preventDefault()` (src/App.tsx:50) touches only the browser event and is not modelled.
- Settling methods do not require a matching earlier intent: the model allows any order of events, more than the program can produce.
- The user is not stored in the component. A user who changes between renders is simply a different argument to the next intent.
