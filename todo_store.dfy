/** The server's in-memory todo store: the module-level `todos` array and the
    five resolvers that read and change it (backend/src/index.ts). */
module TodoStore {

  /** A todo record as the server keeps it. */
  datatype Todo = Todo(id: int, title: string, desc: string, isCompleted: bool)

  datatype Option<+T> = None | Some(value: T)

  datatype Result<+T, +E> = Ok(value: T) | Err(error: E)

  /** The error deleteTodo throws: "Todo with id <id> not found". */
  datatype DeleteError = NotFound(id: int)

  /** The arguments of one createTodo call. */
  datatype Draft = Draft(title: string, desc: string)

  // ---------------------------------------------------------------------------
  // Specification of the list operations
  // ---------------------------------------------------------------------------

  /** Some record in `s` carries `id`. */
  predicate HasId(s: seq<Todo>, id: int) {
    exists k :: 0 <= k < |s| && s[k].id == id
  }

  /** No two records in `s` share an id. */
  predicate IdsUnique(s: seq<Todo>) {
    forall i, j :: 0 <= i < j < |s| ==> s[i].id != s[j].id
  }

  /** The ids of `s` are 1, 2, ..., |s| in list order. */
  predicate Numbered(s: seq<Todo>) {
    forall k :: 0 <= k < |s| ==> s[k].id == k + 1
  }

  /** The position `findIndex(t => t.id === id)` reports: the first record
      carrying `id`, or None where the source gets -1. */
  function FirstIndex(s: seq<Todo>, id: int): (r: Option<nat>)
    ensures r.None? <==> !HasId(s, id)
    ensures r.Some? ==> r.value < |s| && s[r.value].id == id
    ensures r.Some? ==> forall k :: 0 <= k < r.value ==> s[k].id != id
  {
    if s == [] then None
    else if s[0].id == id then Some(0)
    else
      match FirstIndex(s[1..], id)
      case None =>
        assert forall k :: 1 <= k < |s| ==> s[k] == s[1..][k - 1];
        None
      case Some(i) => Some(i + 1)
  }

  /** What `find(t => t.id === id)` returns: the first record carrying `id`. */
  function Find(s: seq<Todo>, id: int): (r: Option<Todo>)
    ensures r.None? <==> !HasId(s, id)
    ensures r.Some? ==> r.value.id == id
    ensures r.Some? ==> exists k :: 0 <= k < |s| && s[k] == r.value &&
                                    forall j :: 0 <= j < k ==> s[j].id != id
  {
    match FirstIndex(s, id)
    case None => None
    case Some(i) => Some(s[i])
  }

  /** How many records of `s` carry `id`. */
  function Count(s: seq<Todo>, id: int): (n: nat)
    ensures n <= |s|
    ensures n > 0 <==> HasId(s, id)
  {
    if s == [] then 0
    else
      assert forall k :: 1 <= k < |s| ==> s[k] == s[1..][k - 1];
      (if s[0].id == id then 1 else 0) + Count(s[1..], id)
  }

  /** The record createTodo builds for the list `s`. */
  function NewTodo(s: seq<Todo>, d: Draft): (r: Todo)
    ensures r.title == d.title && r.desc == d.desc && !r.isCompleted
    ensures r.id == |s| + 1
    ensures Numbered(s) ==> !HasId(s, r.id)
  {
    Todo(|s| + 1, d.title, d.desc, false)
  }

  /** The list after createTodo has been called once per draft, in order. */
  function CreateAll(s: seq<Todo>, drafts: seq<Draft>): (r: seq<Todo>)
    ensures |r| == |s| + |drafts|
    ensures r[..|s|] == s
    decreases |drafts|
  {
    if drafts == [] then s else CreateAll(s + [NewTodo(s, drafts[0])], drafts[1..])
  }

  /** The list after `splice(findIndex(...), 1)`: the first record carrying
      `id` is gone. */
  function WithoutFirst(s: seq<Todo>, id: int): (r: seq<Todo>)
    ensures !HasId(s, id) ==> r == s
    ensures |r| == |s| - (if HasId(s, id) then 1 else 0)
    ensures Count(r, id) == Count(s, id) - (if HasId(s, id) then 1 else 0)
  {
    if s == [] then []
    else if s[0].id == id then s[1..]
    else
      assert ([s[0]] + WithoutFirst(s[1..], id))[1..] == WithoutFirst(s[1..], id);
      [s[0]] + WithoutFirst(s[1..], id)
  }

  /** The list after completeTodo's `todo.isCompleted = true` on the first
      record carrying `id`. */
  function WithCompleted(s: seq<Todo>, id: int): (r: seq<Todo>)
    ensures |r| == |s|
  {
    if s == [] then []
    else if s[0].id == id then [s[0].(isCompleted := true)] + s[1..]
    else [s[0]] + WithCompleted(s[1..], id)
  }

  // ---------------------------------------------------------------------------
  // Properties of the operations
  // ---------------------------------------------------------------------------

  /** Ids assigned as 1..n are pairwise distinct. */
  lemma NumberedIdsUnique(s: seq<Todo>)
    requires Numbered(s)
    ensures IdsUnique(s)
  {
  }

  /** One createTodo on a list numbered 1..n gives a list numbered 1..n+1. */
  lemma CreateKeepsNumbering(s: seq<Todo>, d: Draft)
    requires Numbered(s)
    ensures Numbered(s + [NewTodo(s, d)])
  {
  }

  /** Creates only, from any list numbered 1..n: every new record gets the
      next number, its draft's title and desc, and is not completed. */
  lemma {:induction false} CreateAllNumbers(s: seq<Todo>, drafts: seq<Draft>)
    requires Numbered(s)
    ensures |CreateAll(s, drafts)| == |s| + |drafts|
    ensures CreateAll(s, drafts)[..|s|] == s
    ensures Numbered(CreateAll(s, drafts))
    ensures forall k :: 0 <= k < |drafts| ==>
              CreateAll(s, drafts)[|s| + k] == Todo(|s| + k + 1, drafts[k].title, drafts[k].desc, false)
    decreases |drafts|
  {
    if drafts != [] {
      var s' := s + [NewTodo(s, drafts[0])];
      CreateKeepsNumbering(s, drafts[0]);
      CreateAllNumbers(s', drafts[1..]);
      var r := CreateAll(s', drafts[1..]);
      assert r[..|s'|] == s';
      assert r[..|s|] == s' [..|s|];
      forall k | 0 <= k < |drafts|
        ensures r[|s| + k] == Todo(|s| + k + 1, drafts[k].title, drafts[k].desc, false)
      {
        if k > 0 {
          assert drafts[1..][k - 1] == drafts[k];
        } else {
          assert r[|s|] == r[..|s'|][|s|];
        }
      }
    }
  }

  /** From the empty store, after any history of creates only, the ids are
      exactly 1..n in list order, hence unique. */
  lemma CreatesOnlyGiveOneToN(drafts: seq<Draft>)
    ensures |CreateAll([], drafts)| == |drafts|
    ensures Numbered(CreateAll([], drafts))
    ensures IdsUnique(CreateAll([], drafts))
  {
    CreateAllNumbers([], drafts);
    NumberedIdsUnique(CreateAll([], drafts));
  }

  /** Ids are not unique in general: from [id 1, id 2], deleting 1 and then
      creating gives a second record with id 2. */
  lemma DeleteThenCreateReusesId(a: Draft, b: Draft, c: Draft)
    ensures var s := CreateAll([], [a, b]);
            var t := WithoutFirst(s, 1);
            var u := t + [NewTodo(t, c)];
            u == [Todo(2, b.title, b.desc, false), Todo(2, c.title, c.desc, false)] &&
            !IdsUnique(u)
  {
    var s := CreateAll([], [a, b]);
    CreateAllNumbers([], [a, b]);
    assert s == [Todo(1, a.title, a.desc, false), Todo(2, b.title, b.desc, false)];
    assert WithoutFirst(s, 1) == [s[1]];
    var u := [s[1]] + [NewTodo([s[1]], c)];
    assert u[0].id == u[1].id;
  }

  /** Looking up the id createTodo just assigned finds the new record exactly
      when no earlier record already carries that id; from a list numbered
      1..n it always does. */
  lemma CreateThenLookup(s: seq<Todo>, d: Draft)
    ensures var t := NewTodo(s, d);
            FirstIndex(s + [t], t.id) == Some(|s|) <==> !HasId(s, t.id)
    ensures Numbered(s) ==> Find(s + [NewTodo(s, d)], |s| + 1) == Some(NewTodo(s, d))
  {
    var t := NewTodo(s, d);
    var u := s + [t];
    assert u[|s|] == t;
    assert forall k :: 0 <= k < |s| ==> u[k] == s[k];
    if HasId(s, t.id) {
      var k :| 0 <= k < |s| && s[k].id == t.id;
      assert u[k].id == t.id;
    }
  }

  /** Cutting position i out of a tail is cutting position i + 1 out of the
      whole sequence. */
  lemma ConsSplice(x: Todo, t: seq<Todo>, i: nat)
    requires i < |t|
    ensures [x] + (t[..i] + t[i + 1..]) == ([x] + t)[..i + 1] + ([x] + t)[i + 2..]
  {
    assert ([x] + t)[..i + 1] == [x] + t[..i];
    assert ([x] + t)[i + 2..] == t[i + 1..];
  }

  /** deleteTodo's splice: the first match is cut out and every other record
      stays, in order. */
  lemma {:induction false} WithoutFirstSplices(s: seq<Todo>, id: int)
    requires HasId(s, id)
    ensures var i := FirstIndex(s, id).value;
            WithoutFirst(s, id) == s[..i] + s[i + 1..]
  {
    if s[0].id != id {
      assert HasId(s[1..], id) by {
        var k :| 0 <= k < |s| && s[k].id == id;
        assert s[1..][k - 1].id == id;
      }
      var t := s[1..];
      WithoutFirstSplices(t, id);
      var i := FirstIndex(t, id).value;
      assert FirstIndex(s, id) == Some(i + 1);
      assert WithoutFirst(s, id) == [s[0]] + (t[..i] + t[i + 1..]);
      assert s == [s[0]] + t;
      ConsSplice(s[0], t, i);
    }
  }

  /** completeTodo changes exactly the first match, and only its flag. */
  lemma {:induction false} WithCompletedAt(s: seq<Todo>, id: int)
    requires HasId(s, id)
    ensures var i := FirstIndex(s, id).value;
            WithCompleted(s, id) == s[i := s[i].(isCompleted := true)]
  {
    if s[0].id != id {
      assert HasId(s[1..], id) by {
        var k :| 0 <= k < |s| && s[k].id == id;
        assert s[1..][k - 1].id == id;
      }
      WithCompletedAt(s[1..], id);
      var i := FirstIndex(s[1..], id).value;
      assert [s[0]] + s[1..][i := s[1..][i].(isCompleted := true)]
          == s[i + 1 := s[i + 1].(isCompleted := true)];
    }
  }

  /** completeTodo keeps every record's id, title and desc. */
  lemma {:induction false} WithCompletedKeepsIdentity(s: seq<Todo>, id: int)
    ensures forall k :: 0 <= k < |s| ==>
              var t := WithCompleted(s, id)[k];
              t.id == s[k].id && t.title == s[k].title && t.desc == s[k].desc
  {
    if s != [] {
      var t := s[1..];
      var r := WithCompleted(s, id);
      if s[0].id == id {
        assert r == [s[0].(isCompleted := true)] + t;
      } else {
        WithCompletedKeepsIdentity(t, id);
        assert r == [s[0]] + WithCompleted(t, id);
        assert forall k :: 1 <= k < |s| ==> r[k] == WithCompleted(t, id)[k - 1] && s[k] == t[k - 1];
      }
    }
  }

  /** completeTodo on an id no record carries changes nothing. */
  lemma {:induction false} WithCompletedMissing(s: seq<Todo>, id: int)
    requires !HasId(s, id)
    ensures WithCompleted(s, id) == s
  {
    if s != [] {
      var t := s[1..];
      forall k | 0 <= k < |t| ensures t[k].id != id {
        assert t[k] == s[k + 1];
      }
      WithCompletedMissing(t, id);
      assert s == [s[0]] + t;
    }
  }

  /** Completing twice is the same as completing once. */
  lemma {:induction false} WithCompletedIdempotent(s: seq<Todo>, id: int)
    ensures WithCompleted(WithCompleted(s, id), id) == WithCompleted(s, id)
  {
    if s != [] {
      var r := WithCompleted(s, id);
      if s[0].id == id {
        assert r[1..] == s[1..];
      } else {
        WithCompletedIdempotent(s[1..], id);
        assert r[1..] == WithCompleted(s[1..], id);
      }
    }
  }

  /** With unique ids at most one record carries any given id. */
  lemma {:induction false} UniqueIdsCountAtMostOne(s: seq<Todo>, id: int)
    requires IdsUnique(s)
    ensures Count(s, id) <= 1
  {
    if s != [] {
      assert IdsUnique(s[1..]) by {
        forall i, j | 0 <= i < j < |s[1..]| ensures s[1..][i].id != s[1..][j].id {
          assert s[1..][i] == s[i + 1] && s[1..][j] == s[j + 1];
        }
      }
      UniqueIdsCountAtMostOne(s[1..], id);
      if s[0].id == id {
        forall k | 0 <= k < |s[1..]| ensures s[1..][k].id != id {
          assert s[1..][k] == s[k + 1];
        }
        assert !HasId(s[1..], id);
      }
    }
  }

  /** Overwriting the first match with a record of the same id keeps it the
      first match. */
  lemma CompletedStaysFirst(s: seq<Todo>, k: nat, t: Todo)
    requires k < |s| && t.id == s[k].id
    requires forall j :: 0 <= j < k ==> s[j].id != t.id
    ensures FirstIndex(s[k := t], t.id) == Some(k)
    ensures Find(s[k := t], t.id) == Some(t)
  {
    var u := s[k := t];
    assert u[k].id == t.id;
    assert forall j :: 0 <= j < k ==> u[j] == s[j];
  }

  // ---------------------------------------------------------------------------
  // The store
  // ---------------------------------------------------------------------------

  /** The process-wide `todos` array and its resolvers. */
  class Store {
    var todos: seq<Todo>

    /** `let todos: Todo[] = []`: the store starts empty. */
    constructor ()
      ensures todos == []
    {
      todos := [];
    }

    /** The `todos` query: the stored list itself, in insertion order. */
    function All(): (r: seq<Todo>)
      reads this
      ensures r == todos
    {
      todos
    }

    /** `todos.findIndex((t) => t.id === id)`, scanning from the front. */
    method IndexOf(id: int) returns (r: Option<nat>)
      ensures r == FirstIndex(todos, id)
    {
      var i := 0;
      while i < |todos|
        invariant 0 <= i <= |todos|
        invariant forall k :: 0 <= k < i ==> todos[k].id != id
      {
        if todos[i].id == id {
          return Some(i);
        }
        i := i + 1;
      }
      return None;
    }

    /** The `todo(id)` query: the first record carrying `id`, or none; the
        list is only read. */
    method Lookup(id: int) returns (r: Option<Todo>)
      ensures r == Find(todos, id)
    {
      var i := IndexOf(id);
      match i
      case None => r := None;
      case Some(k) => r := Some(todos[k]);
    }

    /** createTodo: append a record numbered `todos.length + 1` and return it. */
    method Create(title: string, desc: string) returns (t: Todo)
      modifies this
      ensures t == NewTodo(old(todos), Draft(title, desc))
      ensures todos == old(todos) + [t]
      ensures todos == CreateAll(old(todos), [Draft(title, desc)])
    {
      t := NewTodo(todos, Draft(title, desc));
      todos := todos + [t];
    }

    /** deleteTodo: NotFound(id) and no change when nothing carries `id`;
        otherwise the first match is spliced out and returned. */
    method Delete(id: int) returns (r: Result<Todo, DeleteError>)
      modifies this
      ensures !HasId(old(todos), id) ==> r == Err(NotFound(id))
      ensures HasId(old(todos), id) ==> r == Ok(Find(old(todos), id).value)
      ensures todos == WithoutFirst(old(todos), id)
    {
      var i := IndexOf(id);
      match i
      case None =>
        r := Err(NotFound(id));
      case Some(k) =>
        WithoutFirstSplices(todos, id);
        r := Ok(todos[k]);
        todos := todos[..k] + todos[k + 1..];
    }

    /** completeTodo: set `isCompleted` on the first match and return it. The
        source dereferences `undefined` when nothing matches, so a matching
        record is required. */
    method Complete(id: int) returns (t: Todo)
      requires HasId(todos, id)
      modifies this
      ensures todos == WithCompleted(old(todos), id)
      ensures t == Find(old(todos), id).value.(isCompleted := true)
      ensures Find(todos, id) == Some(t)
    {
      var i := IndexOf(id);
      var k := i.value;
      WithCompletedAt(todos, id);
      ghost var before := todos;
      t := todos[k].(isCompleted := true);
      todos := todos[k := t];
      CompletedStaysFirst(before, k, t);
    }
  }

  /** The id-reuse history run against the store itself: create A, create B,
      delete 1, create C leaves two records numbered 2. */
  method DuplicateIdHistory() returns (final: seq<Todo>)
    ensures final == [Todo(2, "B", "second", false), Todo(2, "C", "third", false)]
    ensures !IdsUnique(final)
  {
    var store := new Store();
    var a := store.Create("A", "first");
    var b := store.Create("B", "second");
    var removed := store.Delete(1);
    assert store.todos == [b];
    var c := store.Create("C", "third");
    final := store.All();
    assert final[0].id == final[1].id;
  }
}
