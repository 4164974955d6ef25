/** The state the todo app keeps (the list, the id counter and the text in
    the input box) and the handlers that move it from one snapshot to the
    next. Each handler is a pure function of the previous state. */
module App {
  import opened Text
  import opened TodoList

  datatype State = State(todos: seq<Todo>, counter: nat, input: string)

  /** The state a fresh session starts from: no todos, counter 0, empty input. */
  function Init(): (s: State)
    ensures s.todos == [] && s.counter == 0 && s.input == []
  {
    State([], 0, [])
  }

  /** Well-formedness kept by every handler: ids are distinct, every id lies
      in `[0, counter)`, and every description is non-empty and trimmed. */
  predicate Valid(s: State) {
    && UniqueIds(s.todos)
    && (forall i :: 0 <= i < |s.todos| ==> 0 <= s.todos[i].id < s.counter)
    && (forall i :: 0 <= i < |s.todos| ==>
          s.todos[i].description != [] && IsTrimmed(s.todos[i].description))
  }

  /** The input box's change handler: replaces the text being typed. */
  function SetInput(s: State, text: string): (r: State)
    ensures r.todos == s.todos && r.counter == s.counter && r.input == text
  {
    s.(input := text)
  }

  /** `handleSubmit`. Input that trims to nothing leaves the state alone.
      Otherwise one todo is appended, carrying the old counter as its id,
      the trimmed input as its description and `completed` false; the
      counter moves on by one and the input is cleared. */
  function Submit(s: State): (r: State)
    ensures AllWhitespace(s.input) ==> r == s
    ensures !AllWhitespace(s.input) ==>
      && |r.todos| == |s.todos| + 1
      && r.todos[..|s.todos|] == s.todos
      && r.todos[|s.todos|].id == s.counter
      && r.todos[|s.todos|].description == Trim(s.input)
      && r.todos[|s.todos|].description != []
      && IsTrimmed(r.todos[|s.todos|].description)
      && !r.todos[|s.todos|].completed
      && r.counter == s.counter + 1
      && r.input == []
  {
    var text := Trim(s.input);
    if text == [] then s
    else State(s.todos + [Todo(s.counter, text, false)], s.counter + 1, [])
  }

  /** `handleToggleCompletion`: flips the matching todo, keeps the counter
      and the input. */
  function ToggleCompletion(s: State, id: int): (r: State)
    ensures r.counter == s.counter && r.input == s.input
    ensures |r.todos| == |s.todos|
    ensures forall i :: 0 <= i < |s.todos| ==>
      && r.todos[i].id == s.todos[i].id
      && r.todos[i].description == s.todos[i].description
      && (r.todos[i].completed <==> (s.todos[i].completed != (s.todos[i].id == id)))
  {
    s.(todos := Toggle(s.todos, id))
  }

  /** `handleDelete`: drops the matching todos, keeps the counter and the
      input, so a deleted id is never handed out again. */
  function Delete(s: State, id: int): (r: State)
    ensures r.counter == s.counter && r.input == s.input
    ensures forall x :: x in r.todos <==> x in s.todos && x.id != id
    ensures IsSubsequence(r.todos, s.todos)
    ensures |r.todos| == |s.todos| - CountId(s.todos, id)
  {
    s.(todos := Remove(s.todos, id))
  }

  /** The initial state is well formed. */
  lemma InitValid()
    ensures Valid(Init())
  {
  }

  /** Submitting keeps the state well formed: the new id is the counter,
      above every id present, and the counter then moves past it. */
  lemma SubmitPreservesValid(s: State)
    requires Valid(s)
    ensures Valid(Submit(s))
  {
    var r := Submit(s);
    if !AllWhitespace(s.input) {
      forall i, j | 0 <= i < |r.todos| && 0 <= j < |r.todos| && i != j
        ensures r.todos[i].id != r.todos[j].id
      {
        if i < |s.todos| && j < |s.todos| {
          assert r.todos[i] == s.todos[i] && r.todos[j] == s.todos[j];
        } else if i < |s.todos| {
          assert r.todos[i] == s.todos[i];
        } else {
          assert r.todos[j] == s.todos[j];
        }
      }
      forall i | 0 <= i < |s.todos| ensures r.todos[i] == s.todos[i] {
        assert r.todos[..|s.todos|][i] == r.todos[i];
      }
    }
  }

  /** Toggling keeps the state well formed. */
  lemma TogglePreservesValid(s: State, id: int)
    requires Valid(s)
    ensures Valid(ToggleCompletion(s, id))
  {
  }

  /** Deleting keeps the state well formed. */
  lemma DeletePreservesValid(s: State, id: int)
    requires Valid(s)
    ensures Valid(Delete(s, id))
  {
    var r := Delete(s, id);
    forall i | 0 <= i < |r.todos|
      ensures 0 <= r.todos[i].id < r.counter
      ensures r.todos[i].description != [] && IsTrimmed(r.todos[i].description)
    {
      assert r.todos[i] in s.todos;
    }
    forall i, j | 0 <= i < |r.todos| && 0 <= j < |r.todos| && i != j
      ensures r.todos[i].id != r.todos[j].id
    {
      SubsequenceDistinct(r.todos, s.todos, i, j);
    }
  }
}
