/** The client's cached copy of the `todos` list and the two mutation `update`
    callbacks that edit it (frontend/src/App.tsx). Each callback reads the
    cached list, builds a new list and writes it back; the model returns the
    new list, with None standing for "no cached list". */
module ClientCache {
  import opened TodoStore

  /** A cached todo. A field the query or mutation did not select is absent. */
  datatype Entry = Entry(id: Option<int>, title: string, desc: string, isCompleted: Option<bool>)

  /** The entry the `getTodos` query caches for a server record: all four
      fields selected. */
  function Selected(t: Todo): Entry {
    Entry(Some(t.id), t.title, t.desc, Some(t.isCompleted))
  }

  /** What the `createTodo` mutation document hands to its update callback:
      it selects `title` and `desc` only. */
  function CreateResponse(t: Todo): (r: Entry)
    ensures r.id.None? && r.isCompleted.None?
    ensures r.title == t.title && r.desc == t.desc
  {
    Entry(None, t.title, t.desc, None)
  }

  /** The cached list that mirrors the server list `s` exactly. */
  function View(s: seq<Todo>): (r: seq<Entry>)
    ensures |r| == |s|
    ensures forall k :: 0 <= k < |s| ==> r[k] == Selected(s[k])
  {
    if s == [] then [] else [Selected(s[0])] + View(s[1..])
  }

  /** The create update: with a cached list, `[...todos, createTodo]`;
      without one, nothing is written. */
  function AfterCreate(cache: Option<seq<Entry>>, created: Entry): (r: Option<seq<Entry>>)
    ensures cache.None? ==> r.None?
    ensures cache.Some? ==> r.Some? && |r.value| == |cache.value| + 1 &&
                            r.value[..|cache.value|] == cache.value &&
                            r.value[|cache.value|] == created
  {
    match cache
    case None => None
    case Some(todos) => Some(todos + [created])
  }

  /** `todos.filter((todo) => todo.id != deleteTodo.id)`: an entry without an
      id is never equal to the deleted id, so it is kept. */
  function Kept(todos: seq<Entry>, deletedId: int): (r: seq<Entry>)
    ensures |r| <= |todos|
    ensures forall e :: e in r <==> e in todos && e.id != Some(deletedId)
  {
    if todos == [] then []
    else
      assert forall e :: e in todos <==> e == todos[0] || e in todos[1..];
      (if todos[0].id != Some(deletedId) then [todos[0]] else []) + Kept(todos[1..], deletedId)
  }

  /** The delete update: with a cached list, keep the entries whose id is not
      the deleted one; without one, nothing is written. */
  function AfterDelete(cache: Option<seq<Entry>>, deletedId: int): (r: Option<seq<Entry>>)
    ensures cache.None? ==> r.None?
    ensures cache.Some? ==> r.Some? && |r.value| <= |cache.value| &&
                            forall e :: e in r.value <==> e in cache.value && e.id != Some(deletedId)
  {
    match cache
    case None => None
    case Some(todos) => Some(Kept(todos, deletedId))
  }

  // ---------------------------------------------------------------------------
  // The delete filter
  // ---------------------------------------------------------------------------

  /** Filtering distributes over concatenation, so the kept entries keep
      their original order. */
  lemma {:induction false} KeptAppend(a: seq<Entry>, b: seq<Entry>, deletedId: int)
    ensures Kept(a + b, deletedId) == Kept(a, deletedId) + Kept(b, deletedId)
  {
    if a != [] {
      assert (a + b)[1..] == a[1..] + b;
      KeptAppend(a[1..], b, deletedId);
    } else {
      assert a + b == b;
    }
  }

  /** Filtering twice by the same id is the same as filtering once. */
  lemma {:induction false} KeptIdempotent(todos: seq<Entry>, deletedId: int)
    ensures Kept(Kept(todos, deletedId), deletedId) == Kept(todos, deletedId)
  {
    if todos != [] {
      KeptIdempotent(todos[1..], deletedId);
      var head := if todos[0].id != Some(deletedId) then [todos[0]] else [];
      KeptAppend(head, Kept(todos[1..], deletedId), deletedId);
    }
  }

  /** The filter of a mirrored list drops one entry per server record that
      carries the id. */
  lemma {:induction false} KeptViewLength(s: seq<Todo>, deletedId: int)
    ensures |Kept(View(s), deletedId)| == |s| - Count(s, deletedId)
  {
    if s != [] {
      assert View(s)[1..] == View(s[1..]);
      KeptViewLength(s[1..], deletedId);
    }
  }

  /** A mirrored list in which no record carries the id is left as it is. */
  lemma {:induction false} KeptViewUntouched(s: seq<Todo>, deletedId: int)
    requires !HasId(s, deletedId)
    ensures Kept(View(s), deletedId) == View(s)
  {
    KeptViewLength(s, deletedId);
    if s != [] {
      assert !HasId(s[1..], deletedId) by {
        forall k | 0 <= k < |s[1..]| ensures s[1..][k].id != deletedId {
          assert s[1..][k] == s[k + 1];
        }
      }
      assert View(s)[1..] == View(s[1..]);
      KeptViewUntouched(s[1..], deletedId);
    }
  }

  /** The client filter and the server splice leave the same list exactly
      when at most one record carries the deleted id: the server removes the
      first match only, the client removes every match. */
  lemma {:induction false} DeleteMirrorsIffAtMostOne(s: seq<Todo>, deletedId: int)
    ensures View(WithoutFirst(s, deletedId)) == Kept(View(s), deletedId)
            <==> Count(s, deletedId) <= 1
  {
    KeptViewLength(s, deletedId);
    if Count(s, deletedId) <= 1 {
      AgreeWhenAtMostOne(s, deletedId);
    } else {
      assert |View(WithoutFirst(s, deletedId))| == |s| - 1;
    }
  }

  lemma {:induction false} AgreeWhenAtMostOne(s: seq<Todo>, deletedId: int)
    requires Count(s, deletedId) <= 1
    ensures View(WithoutFirst(s, deletedId)) == Kept(View(s), deletedId)
  {
    if s != [] {
      assert View(s)[1..] == View(s[1..]);
      if s[0].id == deletedId {
        KeptViewUntouched(s[1..], deletedId);
      } else {
        AgreeWhenAtMostOne(s[1..], deletedId);
        assert ([s[0]] + WithoutFirst(s[1..], deletedId))[1..] == WithoutFirst(s[1..], deletedId);
      }
    }
  }

  /** With unique ids, the delete update leaves exactly the mirror of the
      server's list after deleteTodo. */
  lemma UniqueIdsDeleteMirrors(s: seq<Todo>, deletedId: int)
    requires IdsUnique(s)
    ensures AfterDelete(Some(View(s)), deletedId) == Some(View(WithoutFirst(s, deletedId)))
  {
    UniqueIdsCountAtMostOne(s, deletedId);
    DeleteMirrorsIffAtMostOne(s, deletedId);
  }

  // ---------------------------------------------------------------------------
  // Histories of mutations, server and client side by side
  // ---------------------------------------------------------------------------

  /** A mutation the client sends. */
  datatype Mutation = CreateTodo(draft: Draft) | DeleteTodo(id: int)

  /** The server list after one mutation. */
  function ServerStep(s: seq<Todo>, m: Mutation): (r: seq<Todo>)
    ensures m.CreateTodo? ==> r == CreateAll(s, [m.draft])
    ensures m.DeleteTodo? ==> r == WithoutFirst(s, m.id)
  {
    match m
    case CreateTodo(d) => s + [NewTodo(s, d)]
    case DeleteTodo(id) => WithoutFirst(s, id)
  }

  /** The cache after one mutation against the server list `s`. `response`
      is what the create mutation's selection makes of the new record. A
      failed delete (NotFound) runs no update. */
  function ClientStep(cache: Option<seq<Entry>>, s: seq<Todo>, m: Mutation,
                      response: Todo -> Entry): (r: Option<seq<Entry>>)
    ensures cache.None? ==> r.None?
    ensures m.CreateTodo? && cache.Some? ==>
              r == Some(cache.value + [response(NewTodo(s, m.draft))])
    ensures m.DeleteTodo? && !HasId(s, m.id) ==> r == cache
    ensures m.DeleteTodo? && HasId(s, m.id) ==> r == AfterDelete(cache, m.id)
  {
    match m
    case CreateTodo(d) => AfterCreate(cache, response(NewTodo(s, d)))
    case DeleteTodo(id) => if HasId(s, id) then AfterDelete(cache, id) else cache
  }

  function ServerRun(s: seq<Todo>, ms: seq<Mutation>): seq<Todo>
    decreases |ms|
  {
    if ms == [] then s else ServerRun(ServerStep(s, ms[0]), ms[1..])
  }

  function ClientRun(cache: Option<seq<Entry>>, s: seq<Todo>, ms: seq<Mutation>,
                     response: Todo -> Entry): Option<seq<Entry>>
    decreases |ms|
  {
    if ms == [] then cache
    else ClientRun(ClientStep(cache, s, ms[0], response), ServerStep(s, ms[0]), ms[1..], response)
  }

  /** Every delete of the history hits at most one record. */
  predicate DeletesUnambiguous(s: seq<Todo>, ms: seq<Mutation>)
    decreases |ms|
  {
    ms == [] ||
    ((ms[0].DeleteTodo? ==> Count(s, ms[0].id) <= 1) &&
     DeletesUnambiguous(ServerStep(s, ms[0]), ms[1..]))
  }

  /** As written, the create update appends an entry without an id, so the
      cache no longer mirrors the server, and the delete update never
      removes that entry, whatever id is deleted. */
  lemma AsWrittenCreatedEntryStays(s: seq<Todo>, d: Draft, deletedId: int)
    ensures var t := NewTodo(s, d);
            AfterCreate(Some(View(s)), CreateResponse(t)) != Some(View(s + [t])) &&
            CreateResponse(t) in AfterDelete(AfterCreate(Some(View(s)), CreateResponse(t)), deletedId).value
  {
    var t := NewTodo(s, d);
    assert View(s + [t])[|s|] == Selected(t);
  }

  /** As written, from an empty server and cache: create then delete id 1
      empties the server, while the cache still holds the created entry. */
  lemma AsWrittenRunDiverges(d: Draft)
    ensures ServerRun([], [CreateTodo(d), DeleteTodo(1)]) == []
    ensures ClientRun(Some([]), [], [CreateTodo(d), DeleteTodo(1)], CreateResponse)
            == Some([Entry(None, d.title, d.desc, None)])
  {
    var ms := [CreateTodo(d), DeleteTodo(1)];
    var s1 := [NewTodo([], d)];
    var e := Entry(None, d.title, d.desc, None);
    assert ms[1..] == [DeleteTodo(1)] && ms[1..][1..] == [];
    assert HasId(s1, 1) by { assert s1[0].id == 1; }
    assert WithoutFirst(s1, 1) == [];
    assert ServerRun(s1, ms[1..]) == ServerRun([], []);
    assert ClientStep(Some([]), [], ms[0], CreateResponse) == Some([e]);
    assert Kept([e], 1) == [e];
    assert ClientStep(Some([e]), s1, ms[1], CreateResponse) == Some([e]);
    assert ClientRun(Some([e]), s1, ms[1..], CreateResponse)
        == ClientRun(Some([e]), [], [], CreateResponse);
  }

  /** With the create mutation selecting every field, the two updates keep
      the cache an exact mirror of the server through any history whose
      deletes hit at most one record each. */
  lemma {:induction false} CorrectedUpdatesMirror(s: seq<Todo>, ms: seq<Mutation>)
    requires DeletesUnambiguous(s, ms)
    ensures ClientRun(Some(View(s)), s, ms, Selected) == Some(View(ServerRun(s, ms)))
    decreases |ms|
  {
    if ms != [] {
      var s' := ServerStep(s, ms[0]);
      match ms[0] {
        case CreateTodo(d) =>
          assert View(s') == View(s) + [Selected(NewTodo(s, d))];
        case DeleteTodo(id) =>
          if HasId(s, id) {
            DeleteMirrorsIffAtMostOne(s, id);
          }
      }
      CorrectedUpdatesMirror(s', ms[1..]);
    }
  }

  /** From the empty store, any history of creates followed by one delete
      keeps the corrected cache in step with the server: ids are then 1..n,
      so the delete hits at most one record. */
  lemma CreatesThenDeleteMirror(drafts: seq<Draft>, id: int)
    ensures var s := CreateAll([], drafts);
            AfterDelete(Some(View(s)), id) == Some(View(WithoutFirst(s, id)))
  {
    CreatesOnlyGiveOneToN(drafts);
    UniqueIdsDeleteMirrors(CreateAll([], drafts), id);
  }
}
