/** Runs of the view's state machine, stated only in terms of the contracts of
    `TodoApp.App`: what a caller can conclude about the documented scenarios. */
module Scenarios {
  import opened Todos
  import opened TodoApp

  /** User 42 with one active and one completed todo, under `Active`: one
      todo is visible, one is active, something is completed, and the footer shows. */
  method ActiveFilterScenario() returns (app: App)
    ensures app.visibleToDos == [Todo(1, 42, "a", false)]
    ensures app.activeCount == 1 && app.hasCompleted && app.FooterShown()
  {
    var one, two := Todo(1, 42, "a", false), Todo(2, 42, "b", true);
    app := new App();
    app.SetFilter(Active);
    var request := app.RefreshStart(Some(User(42)));
    assert request == Some(ListRequest(42, Active));
    app.RefreshOk(Active, [one, two]);
    assert [one, two][1].completed;
  }

  /** A filter change does not touch the list: until the next refresh the
      visible list is still the selection of the list fetched last, under the
      filter that refresh used. */
  method FilterChangeKeepsFetchedList(app: App, fetchedUnder: Filter, todos: seq<Todo>, mode: Filter)
    requires app.Valid()
    modifies app
    ensures app.Valid() && app.filter == mode
    ensures app.lastFetched == todos && app.lastMode == fetchedUnder
    ensures app.visibleToDos == Select(todos, fetchedUnder)
  {
    app.RefreshOk(fetchedUnder, todos);
    app.SetFilter(mode);
    app.DismissError();
  }

  /** Submitting without a user changes nothing and posts nothing. */
  method AddWithoutUser(app: App) returns (posted: Option<Todo>)
    requires app.Valid()
    modifies app
    ensures app.Valid() && posted == None
    ensures app.State() == old(app.State())
  {
    posted := app.AddIntent(None);
  }

  /** A failed add reports `Add` while the placeholder stays; the next
      successful refresh removes the placeholder. */
  method FailedAdd(app: App, user: User, after: seq<Todo>)
    requires app.Valid()
    modifies app
    ensures app.Valid() && app.tempTodo == None && !app.isAdding
    ensures app.errorType == Some(Add)
  {
    app.TitleChange("buy milk");
    var posted := app.AddIntent(Some(user));
    assert posted == Some(Todo(0, user.id, "buy milk", false));
    app.AddSettled(false);
    assert app.errorType == Some(Add) && app.tempTodo == posted;
    app.RefreshOk(app.filter, after);
  }

  /** Clearing when the server's completed todos are 3 and 7: both ids are
      marked at once, one counter step follows both deletes, and a refresh
      whose list has no completed todo shows none and marks nothing. */
  method ClearCompletedScenario(app: App, user: User, after: seq<Todo>)
    returns (request: Option<int>, ids: seq<int>, marked: seq<int>)
    requires app.Valid()
    requires forall i :: 0 <= i < |after| ==> !after[i].completed
    modifies app
    ensures request == Some(user.id)
    ensures ids == [3, 7] && marked == [3, 7]
    ensures app.requestCount == old(app.requestCount) + 1
    ensures app.Valid() && app.deletingToDoId == []
    ensures forall t :: t in app.visibleToDos ==> !t.completed
  {
    request := app.ClearIntent(Some(user));
    ids := app.ClearFetched([Todo(3, user.id, "x", true), Todo(7, user.id, "y", true)]);
    marked := app.deletingToDoId;
    app.ClearSettled(true, [true, true]);
    app.RefreshOk(app.filter, after);
  }

  /** Closing the banner and the timer clear the same field, and clearing
      twice ends where clearing once does. */
  method ErrorClearIsIdempotent(app: App)
    requires app.Valid()
    modifies app
    ensures app.Valid()
    ensures app.State() == old(app.State()).(errorType := None)
  {
    app.DismissError();
    var once := app.State();
    app.DismissError();
    assert app.State() == once;
    app.ErrorTimeout();
    assert app.State() == once;
  }
}
