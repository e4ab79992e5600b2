# User record store

A model of the in-memory user store of a small users service (`app.py`). The
store is an ordered list of records `{id, name, email}`, seeded with two
records when the service starts. Three operations act on it:

- **list** returns the current records;
- **create** builds a record whose id is the current number of records plus 1,
  takes name and email from the payload (absent when the payload omits them),
  appends it and reports status 201;
- **delete** rebinds the store to the records whose id differs from the given
  one and reports "User deleted" with status 200, whether or not anything matched.

`App.UserStore` is a class whose `users: seq<User>` field stands for the
module-level list; its constructor installs the seed, and `List`, `Add` and
`Delete` are the three operations without the HTTP routing around them. The
filter that delete applies is the pure function `App.WithoutId`, and the lemmas
about it state what delete promises: nothing with the id is left, everything
else is kept with its multiplicity and in its order, a missing id changes
nothing, and deleting twice is the same as deleting once.

Ids are not unique in general. While only creates have happened since seeding,
the record at position i has id i + 1 (`App.AddsOnlyKeepIdsPositional`), so ids
are distinct. But deleting id 1 from the seed and then creating a record hands
out id 2 a second time, both over the functions (`App.DeleteThenAddDuplicatesId`)
and over the store object (`App.DeleteThenAddScenario`).

Two helper functions carry no contract of their own: `App.NewUser` is the record
create builds (app.py:24-28), which `App.UserStore.Add` returns, and
`App.ApplyAdds` is a run of creates applied in order, which the id lemmas are
stated over.

Files: `wrappers.dfy` (the `Option` type for absent fields), `app.dfy` (the
records, the store and the lemmas).

## Model

| member | source | states |
|---|---|---|
| App.UserStore.constructor | app.py:8-11 | the store starts with exactly the two seed records in order, ids 1 and 2 with their names and emails; ids equal positions |
| App.UserStore.List | app.py:18-19 | returns the current sequence of records; changes nothing |
| App.UserStore.Add | app.py:22-30 | new record has id = old length + 1 and the supplied or absent name and email; the store becomes the old store followed by that record; status 201; a store whose ids equal positions keeps that and stays free of duplicate ids |
| App.UserStore.Delete | app.py:33-36 | the store becomes the filtered list; no record with the id remains; every other record stays; length drops by the number of matches; a missing id leaves the store unchanged; "User deleted" with 200 always |
| App.WithoutId | app.py:35 | the filtered list is no longer than the input, and each of its records is from the input and has a different id |
| App.WithoutIdKeeps | app.py:35 | every record whose id differs survives the filter |
| App.WithoutIdMembership | app.py:35 | a record is in the filtered list exactly when it is in the input and its id differs |
| App.WithoutIdLength | app.py:35 | the filter removes exactly as many records as carry the id, duplicates included |
| App.WithoutIdAppend | app.py:35 | filtering a concatenation is the concatenation of the filtered parts, so relative order is kept |
| App.WithoutIdMultiplicity | app.py:35 | each record keeps its multiplicity when its id differs and loses every copy otherwise |
| App.WithoutIdOfAbsent | app.py:35 | the filter leaves the list unchanged exactly when no record has the id |
| App.WithoutIdIdempotent | app.py:34-35 | filtering twice by the same id equals filtering once, so delete is idempotent |
| App.AddsOnlyKeepIdsPositional | app.py:24-29 | after any run of creates on a store whose ids equal positions, the length grows by the number of creates, ids still equal positions and are distinct |
| App.SeedThenAddsHaveUniqueIds | app.py:8-11 | from the seed, any run of creates leaves all ids distinct |
| App.DeleteThenAddDuplicatesId | app.py:25 | from the seed, deleting id 1 keeps only the second record, and a create then gives id 2 a second time, so ids are not unique |
| App.CreateThenDeleteScenario | app.py:22-36 | on a fresh store, create returns record 3 with 201, the store then holds three records, and after deleting id 1 exactly two records remain, with ids 2 and 3 in that order, and status 200 |
| App.DeleteThenAddScenario | app.py:25-35 | on a fresh store, deleting id 1 and then creating a record leaves exactly the second seed record and the new one, both with id 2, so the store's ids are not unique |
| App.DeleteTwiceScenario | app.py:33-36 | on a fresh store, deleting the same id twice reports 200 both times, the second delete changes nothing, and the id is gone |

## Left out

- Flask application setup, routing, `jsonify` and reading the JSON body (app.py:1-5, 13-23): HTTP and JSON plumbing of a library outside the model. A create's payload is two optional strings, and a response is the returned value with its status code.
- A malformed request body, which fails inside the JSON parsing of the HTTP layer before the store is touched; and a body that parses but is not a JSON object (an array, `null`, a number), which fails when create reads its `name` field (app.py:26), still before the append (app.py:29), so the store is untouched in both cases.
- Non-string `name` and `email` values in the payload: modelled as optional strings only.
- The landing page rendered from a template (app.py:13-15) and the server start-up with its port and debug mode (app.py:38-39): templating and I/O.
- The permissive cross-origin configuration (app.py:5): server configuration.
- Concurrent requests and the race between reading the length and appending in create: the source has no synchronisation, and the model is sequential.
