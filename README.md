# Todo store and client cache updates

This project models the core of a small GraphQL todo application in Dafny.

- **Server** (`TodoStore`, file `todo_store.dfy`). The server keeps one
  process-wide list of todo records (`id`, `title`, `desc`, `isCompleted`).
  It has two read resolvers: `todos` returns the whole list and `todo(id)`
  returns the first record with that id. It has three mutations:
  - `createTodo` appends a record numbered `todos.length + 1`.
  - `deleteTodo` removes the first record with the id. It throws
    "Todo with id … not found" when there is none.
  - `completeTodo` sets `isCompleted` on the first record with the id.

  The list is the field `todos: seq<Todo>` of the class `Store`. The
  resolvers are its methods. Each method is proved against a pure function
  over sequences: `Create` against `NewTodo` and `CreateAll`, `Delete`
  against `Find` and `WithoutFirst`, `Complete` against `Find` and
  `WithCompleted`, and `IndexOf` and `Lookup` against `FirstIndex` and
  `Find`. The lemmas state what the source promises about those functions,
  so they hold of the list the methods leave behind.
- **Client** (`ClientCache`, file `client_cache.dfy`). The browser keeps a
  cached copy of the `todos` list. After each mutation, an `update` callback
  rewrites that copy. The create callback appends the mutation's response.
  The delete callback keeps the entries whose id differs from the deleted
  one. Both callbacks do nothing when no list is cached. They are modelled as
  functions from the cached list (`None` when there is none) to the list that
  gets written back. Cached entries carry `Option` fields, because a query
  may not select every field.

Some properties relate the two sides. The server's splice removes only the
first match, while the client's filter removes every match. The two results
agree exactly when at most one record has the deleted id
(`DeleteMirrorsIffAtMostOne`). Ids come from the current length, so they are
1..n after creates only. A delete followed by a create can reuse an id
(`DeleteThenCreateReusesId`, `DuplicateIdHistory`). The model keeps this
length-based numbering as the source writes it.

Two things the code does less than a reader might expect:

- The first-match search that deleteTodo and completeTodo run
  (`findIndex` and `find`, backend/src/index.ts:55 and :66) finds the
  record `createTodo` has just returned only when no earlier record already
  has its id (`CreateThenLookup`). After an id is reused, deleteTodo and
  completeTodo act on the older record. The same holds for the model's
  `Lookup`; the running `todo(id)` query never matches at all (see Left out).
- The create update does not append the whole server record to the cache.
  It appends only the fields the create mutation selects (see Findings).

## Model

| member | source | states |
|---|---|---|
| `TodoStore.FirstIndex` | backend/src/index.ts:55-56 | the position findIndex reports is the first record with the id, and there is none exactly when no record has the id |
| `TodoStore.Find` | backend/src/index.ts:40 | find returns a record with the id and no earlier record has it; it returns nothing exactly when no record has the id |
| `TodoStore.WithoutFirst` | backend/src/index.ts:55-60 | deleting leaves the list as it is when no record has the id; otherwise the list is one shorter and exactly one record with the id is gone |
| `TodoStore.WithCompleted` | backend/src/index.ts:66-68 | completing never changes the list length |
| `TodoStore.NewTodo` | backend/src/index.ts:44-49 | the record createTodo builds has id list length + 1, the given title and desc, and is not completed; on a list numbered 1..n that id is not yet in use |
| `TodoStore.CreateAll` | backend/src/index.ts:43-51 | calling createTodo once per draft adds exactly one record per draft and keeps every earlier record unchanged, in place |
| `TodoStore.NumberedIdsUnique` | backend/src/index.ts:45 | a list numbered 1..n has pairwise distinct ids |
| `TodoStore.CreateKeepsNumbering` | backend/src/index.ts:44-50 | one create on a list numbered 1..n gives a list numbered 1..n+1 |
| `TodoStore.CreateAllNumbers` | backend/src/index.ts:44-50 | creates only keep the earlier records; the k-th new record gets id old length + k + 1, its own title and desc, and is not completed; the list stays numbered 1..n |
| `TodoStore.CreatesOnlyGiveOneToN` | backend/src/index.ts:11-50 | starting from the empty list, any history of creates only gives ids exactly 1..n in list order, so the ids are unique |
| `TodoStore.DeleteThenCreateReusesId` | backend/src/index.ts:44-60 | from [id 1, id 2], deleting 1 and then creating gives two records with id 2, so the ids are no longer unique |
| `TodoStore.CreateThenLookup` | backend/src/index.ts:40-51 | after a create, looking up the new id finds the new record exactly when no earlier record has that id; on a list numbered 1..n it always does |
| `TodoStore.WithoutFirstSplices` | backend/src/index.ts:55-62 | a delete that finds a match cuts out exactly the first matching record and keeps every other record in order |
| `TodoStore.WithCompletedAt` | backend/src/index.ts:66-68 | completing sets `isCompleted` on the first matching record only; every other record stays as it was |
| `TodoStore.WithCompletedKeepsIdentity` | backend/src/index.ts:66-68 | completing keeps every record's id, title and desc |
| `TodoStore.WithCompletedMissing` | backend/src/index.ts:66-68 | completing an id that no record has leaves the list unchanged |
| `TodoStore.WithCompletedIdempotent` | backend/src/index.ts:66-69 | completing twice with the same id gives the same list as completing once |
| `TodoStore.UniqueIdsCountAtMostOne` | backend/src/index.ts:45 | in a list with unique ids, at most one record has any given id |
| `TodoStore.Store.constructor` | backend/src/index.ts:11 | the store starts empty |
| `TodoStore.Store.All` | backend/src/index.ts:39 | the `todos` query returns the stored list itself, in insertion order |
| `TodoStore.Store.IndexOf` | backend/src/index.ts:55 | the front-to-back scan returns the first index holding the id, or nothing when no record has it |
| `TodoStore.Store.Lookup` | backend/src/index.ts:40 | the `todo(id)` query returns the first record with the id, or nothing, and does not change the store |
| `TodoStore.Store.Create` | backend/src/index.ts:43-52 | appends the record `NewTodo` builds {id: old length + 1, the given title and desc, not completed}, keeps all earlier records, and returns the appended record; the new list is `CreateAll` of the old one with this one draft, so every lemma about `CreateAll` holds of the store |
| `TodoStore.Store.Delete` | backend/src/index.ts:54-63 | with no matching id, returns NotFound(id) and leaves the list unchanged; otherwise returns the first match and removes only that record |
| `TodoStore.Store.Complete` | backend/src/index.ts:65-70 | returns the first match with `isCompleted` set; the list changes only in that record, and the returned record is the one now stored |
| `TodoStore.DuplicateIdHistory` | backend/src/index.ts:43-63 | run against the store, the history create A, create B, delete 1, create C leaves two records with id 2 |
| `ClientCache.CreateResponse` | frontend/src/App.tsx:22-29 | the object the create mutation hands to its update callback has the record's title and desc and neither an id nor a completion flag |
| `ClientCache.ServerStep` | backend/src/index.ts:43-63 | one createTodo turns the server list into `CreateAll` of it with that draft; one deleteTodo turns it into `WithoutFirst` of it |
| `ClientCache.ClientStep` | frontend/src/App.tsx:39-137 | with no cached list, no mutation writes one; a create appends the response built from the server's new record; a delete that the server rejects with NotFound leaves the cache unchanged; a delete that succeeds runs the delete filter |
| `ClientCache.View` | frontend/src/App.tsx:12-21 | the cached list for a server list has one entry per record, in the same order, with all four fields |
| `ClientCache.AfterCreate` | frontend/src/App.tsx:40-53 | with no cached list, nothing is written; otherwise the created entry is added at the end and every earlier entry is kept as it was |
| `ClientCache.Kept` | frontend/src/App.tsx:128 | the filter keeps exactly the entries whose id differs from the deleted id, and never grows the list |
| `ClientCache.AfterDelete` | frontend/src/App.tsx:118-136 | with no cached list, nothing is written; otherwise exactly the entries whose id differs from the deleted id are kept |
| `ClientCache.KeptAppend` | frontend/src/App.tsx:128 | filtering a concatenation gives the two filtered parts concatenated, so the kept entries stay in their original order |
| `ClientCache.KeptIdempotent` | frontend/src/App.tsx:128 | filtering twice by the same id equals filtering once |
| `ClientCache.KeptViewLength` | frontend/src/App.tsx:128 | on a mirrored list, the filter drops one entry for each server record with the id |
| `ClientCache.KeptViewUntouched` | frontend/src/App.tsx:128 | on a mirrored list where no record has the id, the filter changes nothing |
| `ClientCache.DeleteMirrorsIffAtMostOne` | frontend/src/App.tsx:126-134 | the client's filter and the server's splice (backend/src/index.ts:60) give the same list if and only if at most one record has the deleted id |
| `ClientCache.AgreeWhenAtMostOne` | frontend/src/App.tsx:126-134 | when at most one record has the id, the client's filter gives the cached copy of the server's list after the delete |
| `ClientCache.UniqueIdsDeleteMirrors` | frontend/src/App.tsx:118-136 | when ids are unique, the delete update turns a cached copy of the server list into a cached copy of the server list after deleteTodo |
| `ClientCache.CreatesThenDeleteMirror` | frontend/src/App.tsx:118-136 | after creates only from the empty store, any delete update keeps the cache an exact copy of the server list |
| `ClientCache.AsWrittenCreatedEntryStays` | frontend/src/App.tsx:22-51 | the create update as written appends an entry with no id: the cache stops mirroring the server, and no later delete update removes that entry |
| `ClientCache.AsWrittenRunDiverges` | frontend/src/App.tsx:22-51 | as written, from an empty server and cache, creating and then deleting id 1 leaves the server empty but the cache still holding the created entry |
| `ClientCache.CorrectedUpdatesMirror` | frontend/src/App.tsx:40-136 | if the create response selects every field, the two updates keep the cache an exact copy of the server list through any history whose deletes each match at most one record |

## Findings

| source | as written | input that shows it | evidently intended | confidence | as-written member | corrected member |
|---|---|---|---|---|---|---|
| frontend/src/App.tsx:22-29 | the `createTodo` mutation selects only `title` and `desc`, and the update callback appends that object to the cached list | empty server and cache; create ("A", "") and then delete id 1: the server list is empty, but the cached list still holds an entry {title "A", desc ""} with no id | the mutation also selects `id` and `isCompleted`, so the appended entry matches the server record and the delete filter can remove it | medium, not executed; the divergence is shown on the lists the update callbacks compute, not on what the app renders: the UI cannot itself ask to delete that row by id 1, because the row has no id and its button sends `Number(undefined)`, which the `Int!` variable rejects (App.tsx:158-166); and how Apollo's cache handles an object with missing fields (it may refetch `getTodos`) is not part of this model | `ClientCache.AsWrittenRunDiverges` | `ClientCache.CorrectedUpdatesMirror` |

## Left out

- `TodoStore.Store.Lookup`: takes an `int` key. The schema declares the argument as `ID!`, and the GraphQL runtime delivers ID values as strings (section 3.5.5 of the GraphQL specification, October 2021). The resolver compares that string with `===` against numeric ids, so the running query never matches. String coercion is not modelled.
- `TodoStore.Store.Complete`: requires that some record has the id. With no match, the source dereferences `undefined` and the request fails with a TypeError before the list changes. That crash is not modelled as a result value.
- Ids are unbounded integers. JavaScript numbers lose precision above 2^53, which a length-based id can never reach in practice.
- Records are values. In the source, the object returned by `createTodo` or `completeTodo` is the same object as the one stored in the array. Nothing keeps that reference after the response is serialized, so aliasing is not modelled.
- `ClientCache.ClientStep`: runs no cache update when deleteTodo fails with NotFound. That is how the client library treats a mutation that returns an error, and it is not code in this repository. The model states the rule and does not derive it.
- `DeleteError.NotFound` carries the id. The message text "Todo with id … not found" is not built.
- The GraphQL schema text, argument parsing and the `Number(id)` coercion belong to the GraphQL runtime. Ids arrive as `int`.
- Server construction, listening on port 4000 and `console.log` output are left out. They are process plumbing and logging.
- `backend/dist/index.js` is the compiled copy of `backend/src/index.ts`, with the same logic. It is not modelled separately.
- Apollo's `readQuery`/`writeQuery`, its cache normalisation by id, and React rendering, state and form handling are foreign library or UI code. Only the lists the update callbacks compute are modelled.
- The delete filter's loose `!=` is modelled as inequality of an optional id: a number against a number compares as usual, and a missing id never equals the deleted id.
