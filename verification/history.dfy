/** Whole sessions: sequences of user actions run from a state, the ids
    handed out along the way, and an abstract model that tracks only which
    ids are live. */
module History {
  import opened Text
  import opened TodoList
  import opened App

  /** One user action: typing into the box, pressing Add (or Enter),
      ticking a checkbox, or pressing a delete button. */
  datatype Action =
    | EditInput(text: string)
    | SubmitInput
    | ToggleTodo(id: int)
    | DeleteTodo(id: int)

  /** The handler an action triggers. */
  function Step(s: State, a: Action): State {
    match a
    case EditInput(text) => SetInput(s, text)
    case SubmitInput => Submit(s)
    case ToggleTodo(id) => ToggleCompletion(s, id)
    case DeleteTodo(id) => Delete(s, id)
  }

  /** The state after running `acts` in order from `s`. */
  function Run(s: State, acts: seq<Action>): State
    decreases |acts|
  {
    if acts == [] then s else Run(Step(s, acts[0]), acts[1..])
  }

  /** The ids handed out, in order, while running `acts` from `s`: one per
      submit whose input did not trim to nothing. */
  function Assigned(s: State, acts: seq<Action>): seq<int>
    decreases |acts|
  {
    if acts == [] then []
    else
      var issued := if acts[0].SubmitInput? && !AllWhitespace(s.input) then [s.counter] else [];
      issued + Assigned(Step(s, acts[0]), acts[1..])
  }

  /** Every well-formed state stays well formed whatever the user does. */
  lemma {:induction false} RunPreservesValid(s: State, acts: seq<Action>)
    requires Valid(s)
    ensures Valid(Run(s, acts))
    decreases |acts|
  {
    if acts != [] {
      match acts[0] {
        case EditInput(text) =>
        case SubmitInput => SubmitPreservesValid(s);
        case ToggleTodo(id) => TogglePreservesValid(s, id);
        case DeleteTodo(id) => DeletePreservesValid(s, id);
      }
      RunPreservesValid(Step(s, acts[0]), acts[1..]);
    }
  }

  /** Every state a session can reach from the initial one is well formed:
      ids distinct, all below the counter, descriptions non-empty and
      trimmed. */
  lemma ReachableValid(acts: seq<Action>)
    ensures Valid(Run(Init(), acts))
  {
    InitValid();
    RunPreservesValid(Init(), acts);
  }

  /** The ids handed out are exactly the consecutive numbers from the
      starting counter up to the final one: the counter only grows, by one
      per id handed out, and deletions never wind it back. */
  lemma {:induction false} AssignedIsCounterRange(s: State, acts: seq<Action>)
    ensures var f := Run(s, acts); var ids := Assigned(s, acts);
      && s.counter + |ids| == f.counter
      && forall k :: 0 <= k < |ids| ==> ids[k] == s.counter + k
    decreases |acts|
  {
    if acts != [] {
      AssignedIsCounterRange(Step(s, acts[0]), acts[1..]);
    }
  }

  /** Ids are never reused: after any session from a well-formed state, the
      id the next successful submit hands out differs from every id present
      at the start and from every id handed out during the session,
      including those of todos deleted since. */
  lemma NoIdReuse(s: State, acts: seq<Action>)
    requires Valid(s)
    ensures var f := Run(s, acts);
      !AllWhitespace(f.input) ==>
        var next := Submit(f).todos[|f.todos|].id;
        && next !in Ids(s.todos)
        && next !in Assigned(s, acts)
  {
    AssignedIsCounterRange(s, acts);
  }

  /** The ids handed out during a session are pairwise distinct. */
  lemma AssignedDistinct(s: State, acts: seq<Action>)
    ensures var ids := Assigned(s, acts);
      forall k, m :: 0 <= k < |ids| && 0 <= m < |ids| && k != m ==> ids[k] != ids[m]
  {
    AssignedIsCounterRange(s, acts);
  }

  /** The abstract view of a state: which ids are live, the counter and the
      input. Order, descriptions and completion are forgotten. */
  datatype IdState = IdState(live: set<int>, counter: nat, input: string)

  function Abstract(s: State): IdState {
    IdState(Ids(s.todos), s.counter, s.input)
  }

  /** The abstract handlers: a successful submit makes the counter live,
      a delete kills one id, nothing else touches the live set. */
  function AbstractStep(a: IdState, act: Action): IdState {
    match act
    case EditInput(text) => a.(input := text)
    case SubmitInput =>
      if AllWhitespace(a.input) then a
      else IdState(a.live + {a.counter}, a.counter + 1, [])
    case ToggleTodo(_) => a
    case DeleteTodo(id) => a.(live := a.live - {id})
  }

  function AbstractRun(a: IdState, acts: seq<Action>): IdState
    decreases |acts|
  {
    if acts == [] then a else AbstractRun(AbstractStep(a, acts[0]), acts[1..])
  }

  /** Each concrete handler is seen by the abstract view as the abstract
      handler. */
  lemma StepRefines(s: State, act: Action)
    ensures Abstract(Step(s, act)) == AbstractStep(Abstract(s), act)
  {
    match act
    case EditInput(text) =>
    case SubmitInput =>
      if !AllWhitespace(s.input) {
        AppendIds(s.todos, Todo(s.counter, Trim(s.input), false));
      }
    case ToggleTodo(id) => ToggleIds(s.todos, id);
    case DeleteTodo(id) => RemoveIds(s.todos, id);
  }

  /** The ids present after any session are exactly those the abstract
      model says: added by successful submits, minus those deleted since. */
  lemma {:induction false} RunRefines(s: State, acts: seq<Action>)
    ensures Abstract(Run(s, acts)) == AbstractRun(Abstract(s), acts)
    decreases |acts|
  {
    if acts != [] {
      StepRefines(s, acts[0]);
      RunRefines(Step(s, acts[0]), acts[1..]);
    }
  }

  /** A live id is always one that was handed out: either present at the
      start or assigned during the session. */
  lemma {:induction false} LiveIdsWereAssigned(s: State, acts: seq<Action>)
    ensures Ids(Run(s, acts).todos) <= Ids(s.todos) + set k | k in Assigned(s, acts)
    decreases |acts|
  {
    if acts != [] {
      var t := Step(s, acts[0]);
      LiveIdsWereAssigned(t, acts[1..]);
      StepRefines(s, acts[0]);
    }
  }

  /** Add "buy milk", tick it, delete it: the list holds one open todo, then
      one completed todo, then nothing. */
  lemma BuyMilkScenario()
    ensures var s1 := Run(Init(), [EditInput("buy milk"), SubmitInput]);
      && s1.todos == [Todo(0, "buy milk", false)]
      && s1.counter == 1
      && Run(s1, [ToggleTodo(0)]).todos == [Todo(0, "buy milk", true)]
      && Run(s1, [ToggleTodo(0), DeleteTodo(0)]).todos == []
  {
    var s0 := SetInput(Init(), "buy milk");
    assert !AllWhitespace(s0.input) by { assert !IsWhitespace(s0.input[0]); }
    TrimUnique(s0.input, 0, |s0.input|);
    assert s0.input[0..|s0.input|] == s0.input;
  }
}
