# In-memory post store

A model of the in-memory CRUD backend in `main.py`. A global list `my_posts`
holds post dictionaries. Five HTTP handlers read and change it: list all,
create, get one, update and delete. Two helpers, `find_post` and
`find_index_post`, scan the list for the first record with a given id.

The model has four parts:

- `Wrappers` (wrappers.dfy): an `Option` type standing in for Python's `None`.
- `Posts` (posts.dfy): the data.
  - `Body` is a request body after schema validation, with defaults applied.
  - `Record` is a stored dictionary. Its `extra` part records whether the
    `published` and `rating` keys are present. The two seeded records lack both.
  - `Outcome` is a handler's result: a value, or `NotFound(id)` in place of the 404.
  - The pure scans are `FirstIndex` and `Lookup`. `RemoveAt` is the list after `pop`.
- `PostLemmas` (lemmas.dfy): what a lookup finds after an append, a
  replacement or a removal, and when ids stay unique.
- `Store` (store.dfy): the class `PostStore`. Its field `posts` is `my_posts`,
  and its methods are the handlers. Each scan is a loop proved equal to its
  pure definition. Each changing handler states the whole new list and the
  lookups that follow.

The code does not check that new ids are unique. `Create` appends even when
`newId` already belongs to a record. Afterwards a lookup of that id still
finds the older record (`LookupAfterAppend`). This model therefore keeps
duplicate ids possible and does not assume uniqueness. Delete and update
keep ids unique when they start unique. Create keeps them unique exactly
when the new id is fresh.

## Model

| member | source | states |
|---|---|---|
| Posts.MakeBody | main.py:9-13 | a validated body keeps title, content and rating; `published` is true unless the client sent false, and an omitted rating is None |
| Posts.FirstIndex | main.py:24-28 | the index found holds the id and no earlier record does; None exactly when no record has the id |
| Posts.Lookup | main.py:18-22 | None exactly when no record has the id; otherwise a record with that id at an index that no earlier match precedes |
| Posts.RemoveAt | main.py:73 | `pop(i)` shortens the list by one, keeps the records before i and shifts the later ones down by one |
| PostLemmas.SeedLookups | main.py:15-16 | the seeded list has unique ids; ids 1 and 2 are found and no other id is |
| PostLemmas.FromBodyRoundTrip | main.py:43-44 | a stored record carries the assigned id and gives back exactly the validated body |
| PostLemmas.DefaultsStored | main.py:12-13 | a body sent without `published` and `rating` is stored with `published` true and `rating` None |
| PostLemmas.FirstIndexIs | main.py:24-28 | an index that holds the id with no earlier match is the one the scan returns |
| PostLemmas.RemovePreservesUnique | main.py:67-73 | removing one record from a list with unique ids leaves the ids unique |
| PostLemmas.ReplacePreservesUnique | main.py:79-87 | replacing a record by one with the same id keeps unique ids unique |
| PostLemmas.AppendUniqueIff | main.py:43-45 | appending to a list with unique ids keeps them unique if and only if the new id was absent |
| PostLemmas.LookupAfterAppend | main.py:44-45 | after an append the new id finds the new record when it was fresh; otherwise it finds the older record |
| PostLemmas.LookupOtherAfterAppend | main.py:45 | an append changes the lookup of no other id |
| PostLemmas.LookupAfterReplace | main.py:85-87 | after the first match is replaced, a lookup of that id finds the new record |
| PostLemmas.LookupOtherAfterReplace | main.py:87 | a replacement that keeps the id changes the lookup of no other id |
| PostLemmas.LookupAfterRemove | main.py:67-73 | after the first match is popped, a lookup of the id finds the next record with that id, if there is one |
| PostLemmas.LookupAfterRemoveUnique | main.py:67-73 | with unique ids, a lookup after the deletion finds nothing |
| PostLemmas.LookupOtherAfterRemove | main.py:73 | popping a record with a different id changes the lookup of no other id |
| Store.PostStore.constructor | main.py:15-16 | the store starts with the two seeded records, which have unique ids |
| Store.PostStore.FindIndex | main.py:24-28 | the loop returns `FirstIndex`, and None exactly when no record has the id |
| Store.PostStore.FindPost | main.py:18-22 | the loop returns `Lookup` of the current list |
| Store.PostStore.All | main.py:35-38 | returns every stored record in storage order |
| Store.PostStore.Create | main.py:40-46 | appends one record with the given id and body and changes no earlier record; keeps ids unique exactly when the id was fresh; a later lookup finds the new record only when the id was fresh; no other id's lookup changes |
| Store.PostStore.Get | main.py:48-58 | NotFound carrying the id exactly when no record has it; otherwise the first matching record; the list is not changed |
| Store.PostStore.Delete | main.py:60-74 | NotFound and no change when the id is absent; otherwise removes only the first match and keeps the order of the rest; a later duplicate survives; with unique ids the id is then gone and ids stay unique; no other id's lookup changes |
| Store.PostStore.Update | main.py:76-88 | NotFound and no change when the id is absent; otherwise replaces only the first match with the body under the requested id; keeps the length and every other index; a lookup then finds the new record; keeps unique ids unique; no other id's lookup changes |

## Left out

- FastAPI routing is not modelled: decorators, status codes (201, 204, 404), `Response` objects and the JSON wrapping of results (`{"data": ...}`, `{"post_detail": ...}`). `NotFound(id)` stands for the 404.
- The 404 detail strings are not modelled. `NotFound` carries the id instead of the formatted message.
- Pydantic parsing and type coercion of request bodies and path ids are not modelled. A malformed body never reaches a handler, so `Body` is already validated, and path ids are integers.
- `randrange(0, 1000000)` is not modelled. `Create` takes the id as a parameter within that range.
- The `root` endpoint (main.py:30-33) returns a constant message and is not modelled.
- Concurrent access to the global list is unguarded and is not modelled. Every handler runs as one atomic step.
- The `if not post` test in `get_post` is modelled as a check for None. A stored dictionary always has keys, so it is never falsy.
- The database-backed variant in `app/main.py`, the ORM table in `app/models.py` and the schemas in `app/schemas.py` are not part of this model. They hand their behaviour to PostgreSQL and the ORM. The `find_post` and `find_index_post` copies in `app/main.py` are the same as the ones modelled here.
- `create_posts` never checks a new id against the stored ones, so duplicate ids can arise through `Create`. The model follows the code and does not assume unique ids.
