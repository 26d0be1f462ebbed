/** The values the to-do view works with: the todo record, the filter modes,
    the error kinds, and the pure derivations the view computes from a fetched
    list (the visible selection, whether anything is completed, how many are
    active, and the ids a bulk delete marks). */
module Todos {

  datatype Option<+T> = None | Some(value: T)

  /** A to-do item. The id is optional where todos are created; `id == 0`
      stands for "no id", the placeholder the server has not stored yet. */
  datatype Todo = Todo(id: int, userId: int, title: string, completed: bool)

  /** The signed-in user, as the session context supplies it. */
  datatype User = User(id: int)

  datatype Filter = All | Active | Completed

  datatype ErrorType = Add | Delete | Unexpected

  /** The filter's predicate: `Active` keeps what is not completed,
      `Completed` what is, and every other mode (the default branch) keeps all. */
  function Matches(mode: Filter, t: Todo): (r: bool)
    ensures mode == All ==> r
    ensures mode != All ==> (r <==> (t.completed <==> mode == Completed))
  {
    match mode
    case Active => !t.completed
    case Completed => t.completed
    case All => true
  }

  /** The todos of `todos` that match `mode`, in their original order. */
  function Select(todos: seq<Todo>, mode: Filter): (r: seq<Todo>)
    ensures |r| <= |todos|
    ensures forall t :: t in r ==> t in todos && Matches(mode, t)
  {
    if todos == [] then []
    else if Matches(mode, todos[0]) then [todos[0]] + Select(todos[1..], mode)
    else Select(todos[1..], mode)
  }

  /** Reference definition by position: the indexes of the todos that match
      `mode`, in increasing order. */
  function Positions(todos: seq<Todo>, mode: Filter): seq<nat>
  {
    if todos == [] then []
    else if Matches(mode, todos[0]) then [0] + Shift(Positions(todos[1..], mode))
    else Shift(Positions(todos[1..], mode))
  }

  /** Every position moved one place to the right. */
  function Shift(p: seq<nat>): seq<nat>
  {
    seq(|p|, k requires 0 <= k < |p| => p[k] + 1)
  }

  lemma ShiftMembership(p: seq<nat>, i: int)
    ensures i in Shift(p) <==> i >= 1 && i - 1 in p
  {
    var q := Shift(p);
    if i in q {
      var k :| 0 <= k < |q| && q[k] == i;
      assert p[k] == i - 1;
    }
    if i >= 1 && i - 1 in p {
      var k :| 0 <= k < |p| && p[k] == i - 1;
      assert q[k] == i;
    }
  }

  /** `r` lists `todos` at the strictly increasing positions `p`, and `p`
      holds exactly the positions whose todo matches `mode`. */
  ghost predicate OrderedSelection(r: seq<Todo>, p: seq<nat>, todos: seq<Todo>, mode: Filter) {
    && |p| == |r|
    && (forall k :: 0 <= k < |p| ==> p[k] < |todos| && r[k] == todos[p[k]])
    && (forall k, j :: 0 <= k < j < |p| ==> p[k] < p[j])
    && (forall i :: 0 <= i < |todos| ==> (i in p <==> Matches(mode, todos[i])))
  }

  lemma {:induction false} PositionsLength(todos: seq<Todo>, mode: Filter)
    ensures |Positions(todos, mode)| == |Select(todos, mode)|
  {
    if todos != [] {
      PositionsLength(todos[1..], mode);
    }
  }

  lemma {:induction false} PositionsPick(todos: seq<Todo>, mode: Filter, k: nat)
    requires k < |Positions(todos, mode)| && k < |Select(todos, mode)|
    ensures Positions(todos, mode)[k] < |todos|
    ensures Select(todos, mode)[k] == todos[Positions(todos, mode)[k]]
  {
    var rest := todos[1..];
    PositionsLength(rest, mode);
    if Matches(mode, todos[0]) {
      if k > 0 {
        PositionsPick(rest, mode, k - 1);
      }
    } else {
      PositionsPick(rest, mode, k);
    }
  }

  lemma {:induction false} PositionsIncreasing(todos: seq<Todo>, mode: Filter, k: nat, j: nat)
    requires k < j < |Positions(todos, mode)|
    ensures Positions(todos, mode)[k] < Positions(todos, mode)[j]
  {
    var rest := todos[1..];
    if Matches(mode, todos[0]) {
      if k > 0 {
        PositionsIncreasing(rest, mode, k - 1, j - 1);
      }
    } else {
      PositionsIncreasing(rest, mode, k, j);
    }
  }

  lemma {:induction false} PositionsMembership(todos: seq<Todo>, mode: Filter, i: nat)
    requires i < |todos|
    ensures i in Positions(todos, mode) <==> Matches(mode, todos[i])
  {
    var rest := todos[1..];
    var q := Shift(Positions(rest, mode));
    ShiftMembership(Positions(rest, mode), i);
    if i > 0 {
      PositionsMembership(rest, mode, i - 1);
      assert todos[i] == rest[i - 1];
    }
    assert Positions(todos, mode) == if Matches(mode, todos[0]) then [0] + q else q;
  }

  /** The selection is an ordered subsequence of the input that contains
      exactly the matching todos. */
  lemma {:induction false} SelectIsOrderedSelection(todos: seq<Todo>, mode: Filter)
    ensures OrderedSelection(Select(todos, mode), Positions(todos, mode), todos, mode)
  {
    var r, p := Select(todos, mode), Positions(todos, mode);
    PositionsLength(todos, mode);
    forall k | 0 <= k < |p| ensures p[k] < |todos| && r[k] == todos[p[k]] {
      PositionsPick(todos, mode, k);
    }
    forall k, j | 0 <= k < j < |p| ensures p[k] < p[j] {
      PositionsIncreasing(todos, mode, k, j);
    }
    forall i | 0 <= i < |todos| ensures i in p <==> Matches(mode, todos[i]) {
      PositionsMembership(todos, mode, i);
    }
  }

  /** Under `All` the selection is the whole list, unchanged. */
  lemma {:induction false} SelectAllIsIdentity(todos: seq<Todo>)
    ensures Select(todos, All) == todos
  {
    if todos != [] {
      SelectAllIsIdentity(todos[1..]);
      assert todos == [todos[0]] + todos[1..];
    }
  }

  /** A matching todo of the input is in the selection. */
  lemma {:induction false} SelectKeepsMatches(todos: seq<Todo>, mode: Filter, i: nat)
    requires i < |todos| && Matches(mode, todos[i])
    ensures todos[i] in Select(todos, mode)
  {
    if i > 0 {
      SelectKeepsMatches(todos[1..], mode, i - 1);
    }
  }

  /** Whether some todo of the list is completed. */
  function HasCompleted(todos: seq<Todo>): (b: bool)
    ensures b <==> exists t :: t in todos && t.completed
    ensures b ==> todos != []
  {
    exists i :: 0 <= i < |todos| && todos[i].completed
  }

  /** How many todos of the list are not completed. */
  function ActiveCount(todos: seq<Todo>): (n: nat)
    ensures n <= |todos|
  {
    |Select(todos, Active)|
  }

  /** Something is completed exactly when the `Completed` selection is not empty. */
  lemma {:induction false} HasCompletedIffSelection(todos: seq<Todo>)
    ensures HasCompleted(todos) <==> Select(todos, Completed) != []
  {
    if HasCompleted(todos) {
      var i :| 0 <= i < |todos| && todos[i].completed;
      SelectKeepsMatches(todos, Completed, i);
    }
    var done := Select(todos, Completed);
    if done != [] {
      assert done[0] in todos;
      var i :| 0 <= i < |todos| && todos[i] == done[0];
      assert todos[i].completed;
    }
  }

  /** Every todo is either active or completed: the two selections split the list. */
  lemma {:induction false} ActiveCountPartition(todos: seq<Todo>)
    ensures ActiveCount(todos) + |Select(todos, Completed)| == |todos|
  {
    if todos != [] {
      ActiveCountPartition(todos[1..]);
    }
  }

  /** All fetched todos are active exactly when none is completed. */
  lemma {:induction false} AllActiveIffNoneCompleted(todos: seq<Todo>)
    ensures ActiveCount(todos) == |todos| <==> !HasCompleted(todos)
  {
    ActiveCountPartition(todos);
    HasCompletedIffSelection(todos);
  }

  /** The footer's visibility test: a non-zero active count or something completed. */
  function FooterVisible(activeCount: int, hasCompleted: bool): (r: bool)
    ensures activeCount >= 0 ==> (r <==> activeCount > 0 || hasCompleted)
  {
    activeCount != 0 || hasCompleted
  }

  /** With the count and the flag derived from a list, the footer shows exactly when the list is not empty. */
  lemma {:induction false} FooterVisibleIffNonEmpty(todos: seq<Todo>)
    ensures FooterVisible(ActiveCount(todos), HasCompleted(todos)) <==> todos != []
  {
    ActiveCountPartition(todos);
    HasCompletedIffSelection(todos);
  }

  /** The ids a bulk delete marks: one per todo, in order (a missing id is 0). */
  function DeleteIds(todos: seq<Todo>): (ids: seq<int>)
    ensures |ids| == |todos|
    ensures forall k :: 0 <= k < |todos| ==> ids[k] == todos[k].id
  {
    if todos == [] then [] else [todos[0].id] + DeleteIds(todos[1..])
  }

  /** When the server answers with the completed part of a list, the ids
      marked are exactly the ids of that list's completed todos. */
  lemma {:induction false} DeleteIdsOfCompleted(todos: seq<Todo>, x: int)
    ensures x in DeleteIds(Select(todos, Completed)) <==>
            exists i :: 0 <= i < |todos| && todos[i].completed && todos[i].id == x
  {
    var done := Select(todos, Completed);
    var ids := DeleteIds(done);
    if x in ids {
      var k :| 0 <= k < |ids| && ids[k] == x;
      assert done[k] in todos;
    }
    if exists i :: 0 <= i < |todos| && todos[i].completed && todos[i].id == x {
      var i :| 0 <= i < |todos| && todos[i].completed && todos[i].id == x;
      SelectKeepsMatches(todos, Completed, i);
      var k :| 0 <= k < |done| && done[k] == todos[i];
      assert ids[k] == x;
    }
  }
}
