/** The ordered list of todos and the two per-item updates the app applies
    to it: flipping completion and deleting, both selected by id. */
module TodoList {

  /** One todo item, with the fields the app builds when it adds one. */
  datatype Todo = Todo(id: int, description: string, completed: bool)

  /** Ids are pairwise distinct. */
  predicate UniqueIds(todos: seq<Todo>) {
    forall i, j :: 0 <= i < |todos| && 0 <= j < |todos| && i != j ==> todos[i].id != todos[j].id
  }

  /** The set of ids present in the list. */
  function Ids(todos: seq<Todo>): set<int> {
    set i | 0 <= i < |todos| :: todos[i].id
  }

  /** Some item carries `id`. */
  predicate HasId(todos: seq<Todo>, id: int) {
    id in Ids(todos)
  }

  /** How many items carry `id`. */
  function CountId(todos: seq<Todo>, id: int): (n: nat)
    ensures n <= |todos|
    ensures n == 0 <==> !HasId(todos, id)
  {
    if todos == [] then 0
    else (if todos[0].id == id then 1 else 0) + CountId(todos[1..], id)
  }

  /** `a` can be obtained from `b` by dropping elements, keeping the order
      of those that remain. */
  predicate IsSubsequence<T(==)>(a: seq<T>, b: seq<T>)
    decreases |b|
  {
    if a == [] then true
    else if b == [] then false
    else (a[0] == b[0] && IsSubsequence(a[1..], b[1..])) || IsSubsequence(a, b[1..])
  }

  /** Two different positions of a subsequence of a list with unique ids
      hold items with different ids. */
  lemma {:induction false} SubsequenceDistinct(a: seq<Todo>, b: seq<Todo>, i: nat, j: nat)
    requires IsSubsequence(a, b) && UniqueIds(b)
    requires i < |a| && j < |a| && i != j
    ensures a[i].id != a[j].id
    decreases |b|
  {
    assert b != [];
    var tail := b[1..];
    assert UniqueIds(tail) by {
      forall p, q | 0 <= p < |tail| && 0 <= q < |tail| && p != q
        ensures tail[p].id != tail[q].id
      {
        assert tail[p] == b[p + 1] && tail[q] == b[q + 1];
      }
    }
    if a[0] == b[0] && IsSubsequence(a[1..], tail) {
      if i > 0 && j > 0 {
        SubsequenceDistinct(a[1..], tail, i - 1, j - 1);
      } else {
        var k := if i == 0 then j else i;
        SubsequenceMember(a[1..], tail, k - 1);
        var m :| 0 <= m < |tail| && tail[m] == a[k];
        assert b[m + 1] == a[k];
      }
    } else {
      SubsequenceDistinct(a, tail, i, j);
    }
  }

  /** Every element of a subsequence occurs in the whole. */
  lemma {:induction false} SubsequenceMember(a: seq<Todo>, b: seq<Todo>, k: nat)
    requires IsSubsequence(a, b) && k < |a|
    ensures exists m :: 0 <= m < |b| && b[m] == a[k]
    decreases |b|
  {
    if a[0] == b[0] && IsSubsequence(a[1..], b[1..]) {
      if k == 0 {
        assert b[0] == a[0];
      } else {
        SubsequenceMember(a[1..], b[1..], k - 1);
        var m :| 0 <= m < |b[1..]| && b[1..][m] == a[1..][k - 1];
        assert b[m + 1] == a[k];
      }
    } else {
      SubsequenceMember(a, b[1..], k);
      var m :| 0 <= m < |b[1..]| && b[1..][m] == a[k];
      assert b[m + 1] == a[k];
    }
  }

  /** The item as the checkbox leaves it: `completed` negated when the id
      matches, untouched otherwise. */
  function Flip(item: Todo, id: int): Todo {
    if item.id == id then item.(completed := !item.completed) else item
  }

  /** `prevTodos.map(...)` in the toggle handler: the same items in the same
      positions, with only those carrying `id` flipped. */
  function Toggle(todos: seq<Todo>, id: int): (r: seq<Todo>)
    ensures |r| == |todos|
    ensures forall i :: 0 <= i < |todos| ==>
      && r[i].id == todos[i].id
      && r[i].description == todos[i].description
      && (r[i].completed <==> (if todos[i].id == id then !todos[i].completed else todos[i].completed))
  {
    if todos == [] then [] else [Flip(todos[0], id)] + Toggle(todos[1..], id)
  }

  /** `prevTodos.filter(...)` in the delete handler: every item not carrying
      `id`, in its original order, and nothing else. */
  function Remove(todos: seq<Todo>, id: int): (r: seq<Todo>)
    ensures forall i :: 0 <= i < |r| ==> r[i].id != id
    ensures forall x :: x in r <==> x in todos && x.id != id
    ensures |r| == |todos| - CountId(todos, id)
    ensures IsSubsequence(r, todos)
  {
    if todos == [] then []
    else if todos[0].id == id then Remove(todos[1..], id)
    else [todos[0]] + Remove(todos[1..], id)
  }

  /** Toggling an id no item carries leaves the list as it was. */
  lemma ToggleAbsent(todos: seq<Todo>, id: int)
    requires !HasId(todos, id)
    ensures Toggle(todos, id) == todos
  {
    var r := Toggle(todos, id);
    forall i | 0 <= i < |todos| ensures r[i] == todos[i] {
      assert todos[i].id != id;
    }
  }

  /** With unique ids, toggling the id of item `k` changes that item's
      completion and nothing else. */
  lemma ToggleFlipsOnlyMatch(todos: seq<Todo>, id: int, k: nat)
    requires UniqueIds(todos)
    requires k < |todos| && todos[k].id == id
    ensures Toggle(todos, id) == todos[k := todos[k].(completed := !todos[k].completed)]
  {
    var r := Toggle(todos, id);
    var e := todos[k := todos[k].(completed := !todos[k].completed)];
    forall i | 0 <= i < |todos| ensures r[i] == e[i] {
      if i != k { assert todos[i].id != id; }
    }
  }

  /** Toggling the same id twice gives back the original list. */
  lemma ToggleInvolution(todos: seq<Todo>, id: int)
    ensures Toggle(Toggle(todos, id), id) == todos
  {
    var r := Toggle(Toggle(todos, id), id);
    forall i | 0 <= i < |todos| ensures r[i] == todos[i] {
    }
  }

  /** Deleting an id no item carries leaves the list as it was. */
  lemma {:induction false} RemoveAbsent(todos: seq<Todo>, id: int)
    requires !HasId(todos, id)
    ensures Remove(todos, id) == todos
  {
    if todos != [] {
      assert todos[0].id != id;
      assert !HasId(todos[1..], id) by {
        forall i | 0 <= i < |todos[1..]| ensures todos[1..][i].id != id {
          assert todos[1..][i] == todos[i + 1];
        }
      }
      RemoveAbsent(todos[1..], id);
      assert todos == [todos[0]] + todos[1..];
    }
  }

  /** Deleting twice is the same as deleting once. */
  lemma RemoveIdempotent(todos: seq<Todo>, id: int)
    ensures Remove(Remove(todos, id), id) == Remove(todos, id)
  {
    var r := Remove(todos, id);
    assert !HasId(r, id);
    RemoveAbsent(r, id);
  }

  /** With unique ids, deleting a present id removes exactly one item. */
  lemma {:induction false} RemoveUniqueShrinksByOne(todos: seq<Todo>, id: int)
    requires UniqueIds(todos) && HasId(todos, id)
    ensures |Remove(todos, id)| == |todos| - 1
  {
    var k :| 0 <= k < |todos| && todos[k].id == id;
    CountUnique(todos, id, k);
  }

  /** With unique ids, an id that item `k` carries is carried by no other. */
  lemma {:induction false} CountUnique(todos: seq<Todo>, id: int, k: nat)
    requires UniqueIds(todos)
    requires k < |todos| && todos[k].id == id
    ensures CountId(todos, id) == 1
  {
    var tail := todos[1..];
    assert UniqueIds(tail) by {
      forall i, j | 0 <= i < |tail| && 0 <= j < |tail| && i != j
        ensures tail[i].id != tail[j].id
      {
        assert tail[i] == todos[i + 1] && tail[j] == todos[j + 1];
      }
    }
    if k == 0 {
      assert !HasId(tail, id) by {
        forall i | 0 <= i < |tail| ensures tail[i].id != id {
          assert tail[i] == todos[i + 1];
        }
      }
    } else {
      assert tail[k - 1] == todos[k];
      CountUnique(tail, id, k - 1);
    }
  }

  /** The ids left after a toggle are the ids before it. */
  lemma ToggleIds(todos: seq<Todo>, id: int)
    ensures Ids(Toggle(todos, id)) == Ids(todos)
  {
    var r := Toggle(todos, id);
    forall x | x in Ids(todos) ensures x in Ids(r) {
      var i :| 0 <= i < |todos| && todos[i].id == x;
      assert r[i].id == x;
    }
  }

  /** The ids left after a delete are the ids before it, minus `id`. */
  lemma RemoveIds(todos: seq<Todo>, id: int)
    ensures Ids(Remove(todos, id)) == Ids(todos) - {id}
  {
    var r := Remove(todos, id);
    forall x | x in Ids(todos) - {id} ensures x in Ids(r) {
      var i :| 0 <= i < |todos| && todos[i].id == x;
      assert todos[i] in r;
      var j :| 0 <= j < |r| && r[j] == todos[i];
    }
    forall x | x in Ids(r) ensures x in Ids(todos) - {id} {
      var j :| 0 <= j < |r| && r[j].id == x;
      assert r[j] in todos;
      var i :| 0 <= i < |todos| && todos[i] == r[j];
    }
  }

  /** Appending one item adds exactly its id. */
  lemma AppendIds(todos: seq<Todo>, item: Todo)
    ensures Ids(todos + [item]) == Ids(todos) + {item.id}
  {
    var r := todos + [item];
    forall x | x in Ids(todos) ensures x in Ids(r) {
      var i :| 0 <= i < |todos| && todos[i].id == x;
      assert r[i] == todos[i];
    }
    assert r[|todos|] == item;
  }
}
