/** The three filtered views the page renders: urgent and not completed,
    not urgent and not completed (displayTodos), and completed
    (displayComplete). Each is a `filter` over the whole list. */
module Views {
  import opened Todos

  /** The predicate of displayTodos(true). */
  predicate IsUrgentActive(t: Todo) {
    !t.isCompleted && t.isUrgent
  }

  /** The predicate of displayTodos(false). */
  predicate IsNonUrgentActive(t: Todo) {
    !t.isCompleted && !t.isUrgent
  }

  /** The predicate of displayComplete. */
  predicate IsDone(t: Todo) {
    t.isCompleted
  }

  /** Urgent, not completed records, as an order-preserving subsequence. */
  function UrgentActive(todos: seq<Todo>): (r: seq<Todo>)
    ensures forall t :: t in r <==> t in todos && !t.isCompleted && t.isUrgent
    ensures forall t :: multiset(r)[t] == if IsUrgentActive(t) then multiset(todos)[t] else 0
    ensures IsSubsequence(r, todos)
  {
    FilterIsSubsequence(todos, IsUrgentActive);
    Filter(todos, IsUrgentActive)
  }

  /** Non-urgent, not completed records, as an order-preserving subsequence. */
  function NonUrgentActive(todos: seq<Todo>): (r: seq<Todo>)
    ensures forall t :: t in r <==> t in todos && !t.isCompleted && !t.isUrgent
    ensures forall t :: multiset(r)[t] == if IsNonUrgentActive(t) then multiset(todos)[t] else 0
    ensures IsSubsequence(r, todos)
  {
    FilterIsSubsequence(todos, IsNonUrgentActive);
    Filter(todos, IsNonUrgentActive)
  }

  /** Completed records, urgent or not, as an order-preserving subsequence. */
  function Completed(todos: seq<Todo>): (r: seq<Todo>)
    ensures forall t :: t in r <==> t in todos && t.isCompleted
    ensures forall t :: multiset(r)[t] == if IsDone(t) then multiset(todos)[t] else 0
    ensures IsSubsequence(r, todos)
  {
    FilterIsSubsequence(todos, IsDone);
    Filter(todos, IsDone)
  }

  /** The three views partition the list: every record lands in exactly one
      of them, so an urgent, not completed record is never shown twice, and
      together they hold each record exactly as often as the list does. */
  lemma ViewsPartition(todos: seq<Todo>)
    ensures multiset(UrgentActive(todos)) + multiset(NonUrgentActive(todos)) + multiset(Completed(todos))
            == multiset(todos)
    ensures forall t :: t in todos ==>
              (t in UrgentActive(todos) || t in NonUrgentActive(todos) || t in Completed(todos))
    ensures forall t :: !(t in UrgentActive(todos) && t in NonUrgentActive(todos))
    ensures forall t :: !(t in UrgentActive(todos) && t in Completed(todos))
    ensures forall t :: !(t in NonUrgentActive(todos) && t in Completed(todos))
  {
  }

  /** A record added by AddTodo shows up at the end of the non-urgent view and
      leaves the other two views as they were. */
  lemma {:induction false} AddShowsAsNonUrgent(todos: seq<Todo>, title: string, desc: string)
    ensures NonUrgentActive(WithNewTodo(todos, title, desc))
            == NonUrgentActive(todos) + [NewTodo(todos, title, desc)]
    ensures UrgentActive(WithNewTodo(todos, title, desc)) == UrgentActive(todos)
    ensures Completed(WithNewTodo(todos, title, desc)) == Completed(todos)
  {
    var t := NewTodo(todos, title, desc);
    assert WithNewTodo(todos, title, desc) == todos + [t];
    FilterAppend(todos, [t], IsNonUrgentActive);
    FilterAppend(todos, [t], IsUrgentActive);
    FilterAppend(todos, [t], IsDone);
    assert [t][1..] == [];
    assert Filter([t], IsNonUrgentActive) == [t];
    assert Filter([t], IsUrgentActive) == [];
    assert Filter([t], IsDone) == [];
  }

  /** The two-item scenario [{id:1, urgent}, {id:2, not urgent}], neither
      completed: the urgent view shows id 1, the non-urgent view id 2. */
  lemma TwoItemScenario()
    ensures var a := Todo(1, "A", "", false, true);
            var b := Todo(2, "B", "", false, false);
            UrgentActive([a, b]) == [a] && NonUrgentActive([a, b]) == [b] && Completed([a, b]) == []
  {
  }
}
