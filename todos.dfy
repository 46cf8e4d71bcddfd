/** The to-do entity of the page component and the pure whole-list
    transformations that its three mutators hand to the state setter:
    spread-append (AddTodo), `filter` (deleteTodo) and `map` with object
    spread (toggleProperty). */
module Todos {

  /** One to-do record, with the five fields of the object literal built by AddTodo. */
  datatype Todo = Todo(id: int, title: string, description: string, isCompleted: bool, isUrgent: bool)

  /** The two keys toggleProperty may flip: `keyof Pick<Todo, 'isCompleted' | 'isUrgent'>`. */
  datatype Property = IsCompleted | IsUrgent

  /** The key that is not `p`. */
  function Other(p: Property): Property {
    match p
    case IsCompleted => IsUrgent
    case IsUrgent => IsCompleted
  }

  /** `todo[property]`: reads the named flag. */
  function FlagValue(t: Todo, p: Property): bool {
    match p
    case IsCompleted => t.isCompleted
    case IsUrgent => t.isUrgent
  }

  /** `r` is an order-preserving subsequence of `s`: `r` is obtained from `s`
      by dropping some elements and keeping the rest in their order. */
  ghost predicate IsSubsequence(r: seq<Todo>, s: seq<Todo>)
    decreases |s|
  {
    r == [] ||
    (s != [] && ((r[0] == s[0] && IsSubsequence(r[1..], s[1..])) || IsSubsequence(r, s[1..])))
  }

  /** `Array.prototype.filter`: the elements of `s` that satisfy `keep`, in order.
      Each element is kept exactly as often as it occurs in `s` when it
      satisfies `keep`, and not at all otherwise. */
  function Filter(s: seq<Todo>, keep: Todo -> bool): (r: seq<Todo>)
    ensures |r| <= |s|
    ensures forall i :: 0 <= i < |r| ==> keep(r[i])
    ensures forall x :: x in r <==> x in s && keep(x)
    ensures forall x :: multiset(r)[x] == if keep(x) then multiset(s)[x] else 0
  {
    if s == [] then []
    else
      assert s == [s[0]] + s[1..];
      var rest := Filter(s[1..], keep);
      if keep(s[0]) then
        assert ([s[0]] + rest)[1..] == rest;
        [s[0]] + rest
      else rest
  }

  /** The filter result is an order-preserving subsequence of the input. */
  lemma {:induction false} FilterIsSubsequence(s: seq<Todo>, keep: Todo -> bool)
    ensures IsSubsequence(Filter(s, keep), s)
  {
    if s != [] {
      FilterIsSubsequence(s[1..], keep);
      var rest := Filter(s[1..], keep);
      if keep(s[0]) {
        assert Filter(s, keep) == [s[0]] + rest;
        assert ([s[0]] + rest)[1..] == rest;
      }
    }
  }

  /** Filtering distributes over concatenation, so filtering a list with an
      element appended filters the old list and then that element. */
  lemma {:induction false} FilterAppend(a: seq<Todo>, b: seq<Todo>, keep: Todo -> bool)
    ensures Filter(a + b, keep) == Filter(a, keep) + Filter(b, keep)
  {
    if a == [] {
      assert a + b == b;
    } else {
      assert (a + b)[0] == a[0];
      assert (a + b)[1..] == a[1..] + b;
      FilterAppend(a[1..], b, keep);
    }
  }

  /** A list whose every element satisfies `keep` is its own filter. */
  lemma {:induction false} FilterAll(s: seq<Todo>, keep: Todo -> bool)
    ensures (forall i :: 0 <= i < |s| ==> keep(s[i])) ==> Filter(s, keep) == s
  {
    if s != [] && forall i :: 0 <= i < |s| ==> keep(s[i]) {
      FilterAll(s[1..], keep);
      assert [s[0]] + s[1..] == s;
    }
  }

  // ---------------------------------------------------------------- AddTodo

  /** The record AddTodo builds: id is the list's current length plus one,
      both flags start false. */
  function NewTodo(todos: seq<Todo>, title: string, desc: string): (t: Todo)
    ensures t.id == |todos| + 1
    ensures t.title == title && t.description == desc
    ensures !t.isCompleted && !t.isUrgent
  {
    Todo(|todos| + 1, title, desc, false, false)
  }

  /** `[...prevTodos, newTodo]`: the list with the new record appended. */
  function WithNewTodo(todos: seq<Todo>, title: string, desc: string): (r: seq<Todo>)
    ensures |r| == |todos| + 1
    ensures forall i :: 0 <= i < |todos| ==> r[i] == todos[i]
    ensures r[|todos|] == NewTodo(todos, title, desc)
  {
    todos + [NewTodo(todos, title, desc)]
  }

  /** The ids of a list are all in 1..|todos|, as they are when the list has
      only ever grown through AddTodo from such a list. */
  predicate IdsWithinLength(todos: seq<Todo>) {
    forall i :: 0 <= i < |todos| ==> 1 <= todos[i].id <= |todos|
  }

  /** No two records of the list share an id. */
  predicate UniqueIds(todos: seq<Todo>) {
    forall i, j :: 0 <= i < j < |todos| ==> todos[i].id != todos[j].id
  }

  /** As long as the ids lie within 1..length, the length-plus-one id is fresh:
      adding keeps the ids unique and within range. */
  lemma AddKeepsDenseIdsUnique(todos: seq<Todo>, title: string, desc: string)
    requires IdsWithinLength(todos) && UniqueIds(todos)
    ensures forall i :: 0 <= i < |todos| ==> todos[i].id != NewTodo(todos, title, desc).id
    ensures IdsWithinLength(WithNewTodo(todos, title, desc))
    ensures UniqueIds(WithNewTodo(todos, title, desc))
  {
  }

  // ------------------------------------------------------------- deleteTodo

  /** deleteTodo as written: `todos.filter((todo) => todo.id === id)` keeps
      only the records whose id equals the argument, each as often as it
      occurs, in order. */
  function KeepOnlyId(todos: seq<Todo>, id: int): (r: seq<Todo>)
    ensures forall i :: 0 <= i < |r| ==> r[i].id == id
    ensures forall t :: t in r <==> t in todos && t.id == id
    ensures forall t :: multiset(r)[t] == if t.id == id then multiset(todos)[t] else 0
    ensures (forall i :: 0 <= i < |todos| ==> todos[i].id != id) ==> r == []
    ensures IsSubsequence(r, todos)
  {
    FilterIsSubsequence(todos, (t: Todo) => t.id == id);
    Filter(todos, (t: Todo) => t.id == id)
  }

  /** The evidently intended deletion, `todo.id !== id`: every record with
      that id is removed and every other record is kept, as often as it
      occurs, in order. */
  function WithoutId(todos: seq<Todo>, id: int): (r: seq<Todo>)
    ensures forall i :: 0 <= i < |r| ==> r[i].id != id
    ensures forall t :: t in r <==> t in todos && t.id != id
    ensures forall t :: multiset(r)[t] == if t.id != id then multiset(todos)[t] else 0
    ensures (forall i :: 0 <= i < |todos| ==> todos[i].id != id) ==> r == todos
    ensures IsSubsequence(r, todos)
  {
    FilterIsSubsequence(todos, (t: Todo) => t.id != id);
    FilterAll(todos, (t: Todo) => t.id != id);
    Filter(todos, (t: Todo) => t.id != id)
  }

  /** On the two-item list [{id:1}, {id:2}], deleting id 1 as written leaves
      exactly the item that was to be deleted; the intended deletion leaves
      the other one. */
  lemma DeleteAsWrittenKeepsTarget()
    ensures var a := Todo(1, "A", "", false, true);
            var b := Todo(2, "B", "", false, false);
            KeepOnlyId([a, b], 1) == [a] && WithoutId([a, b], 1) == [b]
  {
  }

  /** The id policy does not keep ids unique once the list has shrunk: after
      the intended deletion of id 1 from [{id:1}, {id:2}], or the as-written
      one that keeps only id 2, the next added record gets id 2 again. */
  lemma IdCollisionAfterDelete()
    ensures var a := Todo(1, "A", "", false, true);
            var b := Todo(2, "B", "", false, false);
            var afterIntended := WithNewTodo(WithoutId([a, b], 1), "X", "Y");
            var afterAsWritten := WithNewTodo(KeepOnlyId([a, b], 2), "X", "Y");
            afterIntended[0].id == afterIntended[1].id == 2 &&
            afterAsWritten[0].id == afterAsWritten[1].id == 2 &&
            !UniqueIds(afterIntended) && !UniqueIds(afterAsWritten)
  {
  }

  // --------------------------------------------------------- toggleProperty

  /** `{...todo, [property]: !todo[property]}`: a copy with the named flag negated. */
  function Toggled(t: Todo, p: Property): (r: Todo)
    ensures r.id == t.id && r.title == t.title && r.description == t.description
    ensures FlagValue(r, p) == !FlagValue(t, p)
    ensures FlagValue(r, Other(p)) == FlagValue(t, Other(p))
  {
    match p
    case IsCompleted => t.(isCompleted := !t.isCompleted)
    case IsUrgent => t.(isUrgent := !t.isUrgent)
  }

  /** Toggling the same flag twice gives the record back. */
  lemma ToggledTwice(t: Todo, p: Property)
    ensures Toggled(Toggled(t, p), p) == t
  {
  }

  /** The `todos.map(...)` of toggleProperty: every record whose id matches is
      replaced by its toggled copy, every other record is passed through. */
  function ToggleMatching(todos: seq<Todo>, id: int, p: Property): (r: seq<Todo>)
    ensures |r| == |todos|
    ensures forall i :: 0 <= i < |todos| ==>
              r[i] == if todos[i].id == id then Toggled(todos[i], p) else todos[i]
  {
    if todos == [] then []
    else
      var head := if todos[0].id == id then Toggled(todos[0], p) else todos[0];
      [head] + ToggleMatching(todos[1..], id, p)
  }

  /** Toggling keeps every id at its position, so it keeps any property of the ids. */
  lemma ToggleKeepsIds(todos: seq<Todo>, id: int, p: Property)
    ensures forall i :: 0 <= i < |todos| ==> ToggleMatching(todos, id, p)[i].id == todos[i].id
    ensures IdsWithinLength(todos) ==> IdsWithinLength(ToggleMatching(todos, id, p))
    ensures UniqueIds(todos) ==> UniqueIds(ToggleMatching(todos, id, p))
  {
  }

  /** Toggling an id that no record carries leaves the list as it is. */
  lemma ToggleUnmatchedIsIdentity(todos: seq<Todo>, id: int, p: Property)
    requires forall i :: 0 <= i < |todos| ==> todos[i].id != id
    ensures ToggleMatching(todos, id, p) == todos
  {
  }

  /** Toggling the same (id, property) twice restores the original list. */
  lemma ToggleTwiceIsIdentity(todos: seq<Todo>, id: int, p: Property)
    ensures ToggleMatching(ToggleMatching(todos, id, p), id, p) == todos
  {
  }
}
