/** The to-do view's state machine. The class holds the component's state
    fields; each user intent and each outcome of a server call is one method.
    The server's answers (fetched lists, success or failure) and the session's
    user are parameters, so the environment may fire the methods in any order. */
module TodoApp {
  import opened Todos

  /** Every stored field of the view, as one value. */
  datatype ViewState = ViewState(
    visibleToDos: seq<Todo>,
    hasCompleted: bool,
    activeCount: nat,
    filter: Filter,
    errorType: Option<ErrorType>,
    requestCount: nat,
    newTodoTitle: string,
    isAdding: bool,
    tempTodo: Option<Todo>,
    deletingToDoId: seq<int>)

  /** A list request as the refresh effect issues it: the user whose todos are
      fetched and the filter in force when the request went out. */
  datatype ListRequest = ListRequest(userId: int, mode: Filter)

  class App {
    var visibleToDos: seq<Todo>
    var hasCompleted: bool
    var activeCount: nat
    var filter: Filter
    var errorType: Option<ErrorType>
    var requestCount: nat
    var newTodoTitle: string
    var isAdding: bool
    var tempTodo: Option<Todo>
    var deletingToDoId: seq<int>

    // The list the last successful refresh fetched, and the filter it applied.
    ghost var lastFetched: seq<Todo>
    ghost var lastMode: Filter

    /** The visible list and the two derived values come from the last
        fetched list, and the add-in-progress flag is set exactly when a
        placeholder is shown. Both are set on submit and cleared by the next
        successful refresh, which may come before or after the post settles. */
    ghost predicate Valid()
      reads this
    {
      && visibleToDos == Select(lastFetched, lastMode)
      && hasCompleted == HasCompleted(lastFetched)
      && activeCount == ActiveCount(lastFetched)
      && (isAdding <==> tempTodo.Some?)
      && (tempTodo.Some? ==>
            tempTodo.value.id == 0 && !tempTodo.value.completed && tempTodo.value.title != "")
    }

    function State(): ViewState
      reads this
    {
      ViewState(visibleToDos, hasCompleted, activeCount, filter, errorType,
                requestCount, newTodoTitle, isAdding, tempTodo, deletingToDoId)
    }

    /** Whether the footer is rendered. */
    predicate FooterShown()
      reads this
      ensures Valid() ==> (FooterShown() <==> lastFetched != [])
    {
      FooterVisibleIffNonEmpty(lastFetched);
      FooterVisible(activeCount, hasCompleted)
    }

    constructor ()
      ensures Valid()
      ensures State() == ViewState([], false, 0, All, None, 0, "", false, None, [])
    {
      visibleToDos, hasCompleted, activeCount, filter := [], false, 0, All;
      errorType, requestCount, newTodoTitle := None, 0, "";
      isAdding, tempTodo, deletingToDoId := false, None, [];
      lastFetched, lastMode := [], All;
    }

    /** The header's input reports a new title. */
    method TitleChange(title: string)
      requires Valid()
      modifies this
      ensures Valid()
      ensures lastFetched == old(lastFetched) && lastMode == old(lastMode)
      ensures State() == old(State()).(newTodoTitle := title)
    {
      newTodoTitle := title;
    }

    /** The footer selects a filter; a changed filter is the cue to refresh. */
    method SetFilter(mode: Filter)
      requires Valid()
      modifies this
      ensures Valid()
      ensures lastFetched == old(lastFetched) && lastMode == old(lastMode)
      ensures State() == old(State()).(filter := mode)
    {
      filter := mode;
    }

    /** The user closes the error banner. */
    method DismissError()
      requires Valid()
      modifies this
      ensures Valid()
      ensures lastFetched == old(lastFetched) && lastMode == old(lastMode)
      ensures State() == old(State()).(errorType := None)
    {
      errorType := None;
    }

    /** The timer scheduled after a change of the request counter fires. */
    method ErrorTimeout()
      requires Valid()
      modifies this
      ensures Valid()
      ensures lastFetched == old(lastFetched) && lastMode == old(lastMode)
      ensures State() == old(State()).(errorType := None)
    {
      errorType := None;
    }

    /** Submitting the title: with a user and a non-empty title, the error is
        cleared, the add is marked in progress, a placeholder with id 0 is shown
        and the todo is posted; otherwise nothing happens. */
    method AddIntent(user: Option<User>) returns (posted: Option<Todo>)
      requires Valid()
      modifies this
      ensures Valid()
      ensures lastFetched == old(lastFetched) && lastMode == old(lastMode)
      ensures posted.Some? <==> user.Some? && old(newTodoTitle) != ""
      ensures posted.None? ==> State() == old(State())
      ensures posted.Some? ==>
                && posted.value == Todo(0, user.value.id, old(newTodoTitle), false)
                && State() == old(State()).(errorType := None, isAdding := true, tempTodo := posted)
    {
      posted := None;
      if user.Some? && newTodoTitle != "" {
        errorType := None;
        isAdding := true;
        var newToDo := Todo(0, user.value.id, newTodoTitle, false);
        tempTodo := Some(newToDo);
        posted := Some(newToDo);
      }
    }

    /** The post settles: success clears the title, failure reports `Add`;
        either way the request counter goes up by one. */
    method AddSettled(ok: bool)
      requires Valid()
      modifies this
      ensures Valid()
      ensures lastFetched == old(lastFetched) && lastMode == old(lastMode)
      ensures requestCount == old(requestCount) + 1
      ensures State() == old(State()).(
                newTodoTitle := if ok then "" else old(newTodoTitle),
                errorType := if ok then old(errorType) else Some(Add),
                requestCount := old(requestCount) + 1)
    {
      if ok {
        newTodoTitle := "";
      } else {
        errorType := Some(Add);
      }
      requestCount := requestCount + 1;
    }

    /** Removing one todo: with a user, the error is cleared, the id is
        appended to the ids being deleted and the delete is sent; otherwise
        nothing happens. */
    method RemoveIntent(user: Option<User>, id: int) returns (deleted: Option<int>)
      requires Valid()
      modifies this
      ensures Valid()
      ensures lastFetched == old(lastFetched) && lastMode == old(lastMode)
      ensures deleted == if user.Some? then Some(id) else None
      ensures user.None? ==> State() == old(State())
      ensures user.Some? ==>
                && State() == old(State()).(errorType := None, deletingToDoId := old(deletingToDoId) + [id])
                && |deletingToDoId| == |old(deletingToDoId)| + 1
                && deletingToDoId[..|old(deletingToDoId)|] == old(deletingToDoId)
                && deletingToDoId[|old(deletingToDoId)|] == id
    {
      deleted := None;
      if user.Some? {
        errorType := None;
        deletingToDoId := deletingToDoId + [id];
        deleted := Some(id);
      }
    }

    /** The delete settles: failure reports `Delete`; either way the request
        counter goes up by one. */
    method RemoveSettled(ok: bool)
      requires Valid()
      modifies this
      ensures Valid()
      ensures lastFetched == old(lastFetched) && lastMode == old(lastMode)
      ensures requestCount == old(requestCount) + 1
      ensures State() == old(State()).(
                errorType := if ok then old(errorType) else Some(Delete),
                requestCount := old(requestCount) + 1)
    {
      if !ok {
        errorType := Some(Delete);
      }
      requestCount := requestCount + 1;
    }

    /** Clearing the completed todos: with a user, the user's completed todos
        are requested. No state changes here; in particular an error already
        shown stays. */
    method ClearIntent(user: Option<User>) returns (request: Option<int>)
      ensures request.Some? <==> user.Some?
      ensures user.Some? ==> request == Some(user.value.id)
    {
      request := None;
      if user.Some? {
        request := Some(user.value.id);
      }
    }

    /** The completed todos arrive: their ids, in order and with a missing id
        as 0, replace the ids being deleted, and one delete per id is sent. */
    method ClearFetched(completed: seq<Todo>) returns (ids: seq<int>)
      requires Valid()
      modifies this
      ensures Valid()
      ensures lastFetched == old(lastFetched) && lastMode == old(lastMode)
      ensures |ids| == |completed| && forall k :: 0 <= k < |ids| ==> ids[k] == completed[k].id
      ensures State() == old(State()).(deletingToDoId := ids)
    {
      ids := DeleteIds(completed);
      deletingToDoId := ids;
    }

    /** The clear settles once, after the fetch and all its deletes: a failed
        fetch or any failed delete reports `Delete`, and the request counter
        goes up by exactly one however many deletes were sent. */
    method ClearSettled(fetchOk: bool, deletesOk: seq<bool>)
      requires Valid()
      modifies this
      ensures Valid()
      ensures lastFetched == old(lastFetched) && lastMode == old(lastMode)
      ensures requestCount == old(requestCount) + 1
      ensures State() == old(State()).(
                errorType := if fetchOk && false !in deletesOk then old(errorType) else Some(Delete),
                requestCount := old(requestCount) + 1)
    {
      if !fetchOk || false in deletesOk {
        errorType := Some(Delete);
      }
      requestCount := requestCount + 1;
    }

    /** The refresh effect, run when the filter or the request counter has
        changed: with a user, that user's list is requested under the current
        filter; no state changes here. */
    method RefreshStart(user: Option<User>) returns (request: Option<ListRequest>)
      ensures request.Some? <==> user.Some?
      ensures user.Some? ==> request == Some(ListRequest(user.value.id, filter))
    {
      request := None;
      if user.Some? {
        request := Some(ListRequest(user.value.id, filter));
      }
    }

    /** The list arrives for a request issued under `mode`: the visible list
        becomes its selection under `mode`, the completed flag and the active
        count are derived from it, and the recomputed visible list retires the
        add-in-progress flag, the placeholder and the ids being deleted. */
    method RefreshOk(mode: Filter, todos: seq<Todo>)
      requires Valid()
      modifies this
      ensures Valid()
      ensures lastFetched == todos && lastMode == mode
      ensures State() == old(State()).(
                visibleToDos := Select(todos, mode),
                hasCompleted := HasCompleted(todos),
                activeCount := ActiveCount(todos),
                isAdding := false,
                tempTodo := None,
                deletingToDoId := [])
      ensures forall t :: t in visibleToDos ==> t in todos && Matches(mode, t)
      ensures hasCompleted <==> exists i :: 0 <= i < |todos| && todos[i].completed
      ensures activeCount + |Select(todos, Completed)| == |todos|
      ensures FooterShown() <==> todos != []
    {
      visibleToDos := Select(todos, mode);
      hasCompleted := HasCompleted(todos);
      activeCount := ActiveCount(todos);
      lastFetched, lastMode := todos, mode;
      isAdding := false;
      tempTodo := None;
      deletingToDoId := [];
      ActiveCountPartition(todos);
    }

    /** The list request fails: `Unexpected` is reported and nothing else
        changes; the visible list, the completed flag, the active count, the
        placeholder and the ids being deleted stay as they were. */
    method RefreshFail()
      requires Valid()
      modifies this
      ensures Valid()
      ensures lastFetched == old(lastFetched) && lastMode == old(lastMode)
      ensures State() == old(State()).(errorType := Some(Unexpected))
    {
      errorType := Some(Unexpected);
    }
  }
}
