/** The page component's state: one `todos` list that each mutator reads and
    replaces through the state setter, and the two render helpers that pick
    a filtered view of it. */
module Home {
  import opened Todos
  import opened Views

  class TodoPage {
    /** The list held in component state. */
    var todos: seq<Todo>

    /** The state starts from the sample data, here any list. */
    constructor (initial: seq<Todo>)
      ensures todos == initial
    {
      todos := initial;
    }

    /** AddTodo: appends a record with id `length + 1`, the given title and
        description and both flags false; the old records stay where they were. */
    method AddTodo(title: string, desc: string)
      modifies this
      ensures todos == WithNewTodo(old(todos), title, desc)
      ensures |todos| == |old(todos)| + 1 && todos[..|old(todos)|] == old(todos)
      ensures todos[|old(todos)|] == Todo(|old(todos)| + 1, title, desc, false, false)
    {
      var newTodo := NewTodo(todos, title, desc);
      todos := todos + [newTodo];
    }

    /** deleteTodo as written: the list becomes the records whose id equals `id`. */
    method DeleteTodo(id: int)
      modifies this
      ensures todos == KeepOnlyId(old(todos), id)
      ensures forall t :: t in todos <==> t in old(todos) && t.id == id
      ensures forall t :: multiset(todos)[t] == if t.id == id then multiset(old(todos))[t] else 0
      ensures IsSubsequence(todos, old(todos))
    {
      todos := KeepOnlyId(todos, id);
    }

    /** toggleProperty: each record with the given id is replaced by a copy
        with the named flag negated; the list keeps its length and order. */
    method ToggleProperty(id: int, p: Property)
      modifies this
      ensures todos == ToggleMatching(old(todos), id, p)
      ensures |todos| == |old(todos)|
      ensures forall i :: 0 <= i < |todos| && old(todos)[i].id != id ==> todos[i] == old(todos)[i]
    {
      todos := ToggleMatching(todos, id, p);
    }

    /** displayTodos: the not-completed records whose urgency is `displayUrgent`. */
    method DisplayTodos(displayUrgent: bool) returns (shown: seq<Todo>)
      ensures forall t :: t in shown <==> t in todos && !t.isCompleted && t.isUrgent == displayUrgent
      ensures shown == if displayUrgent then UrgentActive(todos) else NonUrgentActive(todos)
    {
      if displayUrgent {
        shown := UrgentActive(todos);
      } else {
        shown := NonUrgentActive(todos);
      }
    }

    /** displayComplete: the completed records. */
    method DisplayComplete() returns (shown: seq<Todo>)
      ensures forall t :: t in shown <==> t in todos && t.isCompleted
      ensures shown == Completed(todos)
    {
      shown := Completed(todos);
    }
  }
}
