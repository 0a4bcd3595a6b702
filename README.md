# Pipeline registry and pagination, modelled in Dafny

This project models the two pieces of logic in a collection of FastAPI and
Streamlit demo applications. Everything else in those applications is UI code,
cloud I/O or calls into libraries.

1. **The pipeline registry** of the question-answering service
   (`special_mission_2/app/main.py`). The service keeps a process-wide list of
   `Pipeline(name, pipeline)` entries. Three endpoints and the helper
   `get_pipeline` use it:
   - `initialize_pipeline` adds a model under its name. It does nothing if the
     name is already registered. It raises 404 if the model cannot be loaded.
   - `get_models` lists the registered names.
   - `get_pipeline`, a plain helper with no route, finds the entry for a name.
   - `analyze` runs the named pipeline on a question and a context.

   `pipeline_registry.dfy` models the list as the `seq<Entry<H>>` field of the
   class `Registry<H>`, where `H` is the opaque inference handle. The class
   invariant `Valid()` says that names are unique. `InitializePipeline` appends
   in place under `modifies this`. The other endpoints only read the list.
   The model loader (`mrc_load_pipeline`) is a parameter of type
   `string -> Option<H>`, where `None` stands for an exception. The inference
   call is a parameter of type `(H, string, string) -> map<string, string>`.

2. **The pagination endpoint** `get_user(skip, limit)`
   (`test_fastapi/03_query_parameter.py`). It returns
   `fake_item_db[skip: skip + limit]` over a fixed list of three items.
   `query_parameter.dfy` models Python's step-1 slice. Each bound is
   normalised on its own: a negative bound counts from the end, and an
   out-of-range bound is clamped to the sequence. The slice is empty when the
   normalised stop is not after the normalised start.

`wrappers.dfy` holds the `Option` and `Result` types that carry the source's
`None` returns and raised HTTP errors.

## Model

| member | source | states |
|---|---|---|
| `PipelineRegistry.StatusCode` | special_mission_2/app/main.py:69-76 | a failed load and an inactive pipeline are reported as 404, and a missing `'answer'` key as 500 |
| `PipelineRegistry.NamesOf` | special_mission_2/app/main.py:53 | the name list has one name per entry, and position i holds entry i's name |
| `PipelineRegistry.Lookup` | special_mission_2/app/main.py:36-40 | the lookup gives `None` exactly when no entry has the name; otherwise it gives an entry of the list that carries the name |
| `PipelineRegistry.LookupIsFirst` | special_mission_2/app/main.py:37-39 | the lookup gives the entry at the first index whose name matches |
| `PipelineRegistry.LookupAppend` | special_mission_2/app/main.py:36-40 | after an append, a name that was already present finds the same entry; a new name finds the appended entry if it matches, and nothing otherwise |
| `PipelineRegistry.NamesOfAppend` | special_mission_2/app/main.py:66 | appending an entry appends its name at the end of the name list |
| `PipelineRegistry.UniqueNamesAppend` | special_mission_2/app/main.py:58-67 | an append keeps names pairwise distinct if and only if the new name was not already present |
| `PipelineRegistry.UniqueCount` | special_mission_2/app/main.py:58-67 | when names are unique, a registered name occurs exactly once and any other name occurs zero times |
| `PipelineRegistry.Registry.constructor` | special_mission_2/app/main.py:33 | the registry starts empty, so its names are unique |
| `PipelineRegistry.Registry.GetModels` | special_mission_2/app/main.py:48-53 | the result lists the registered names in insertion order; it is empty when the registry is empty |
| `PipelineRegistry.Registry.GetPipeline` | special_mission_2/app/main.py:36-40 | the scan returns the first entry with the name, and `None` exactly when the name is not registered |
| `PipelineRegistry.Registry.InitializePipeline` | special_mission_2/app/main.py:56-69 | a registered name gets its name back and the list is unchanged; a new name that loads is appended as exactly one entry at the end, with earlier entries unchanged; a load failure gives the 404 error and the list is unchanged; every failure is a 404; names stay unique; after a success the name occurs exactly once |
| `PipelineRegistry.Registry.Analyze` | special_mission_2/app/main.py:72-81 | an unregistered name gives the 404 "not active" error; otherwise the result carries the requested name and the `'answer'` field of the inference result for the first matching entry; a missing `'answer'` key is an error; the error is a 404 for an unregistered name and a 500 otherwise; the registry is not modified |
| `PipelineRegistry.RegisterTwice` | special_mission_2/app/main.py:56-67 | registering the same loadable name twice succeeds both times and leaves a single entry |
| `PipelineRegistry.RegisterInOrder` | special_mission_2/app/main.py:56-81 | registering `a` then `b` lists `[a, b]`, and analyzing `a` answers with `a`'s inference result |
| `QueryParameter.Bound` | test_fastapi/03_query_parameter.py:14 | a slice bound is normalised as Python does: in-range bounds are kept, a negative bound counts from the end, and the result is clamped to `0..len` |
| `QueryParameter.Slice` | test_fastapi/03_query_parameter.py:14 | the slice length is the normalised stop minus the normalised start, or zero if that is negative; element k is the element at the normalised start plus k |
| `QueryParameter.SliceIsWindow` | test_fastapi/03_query_parameter.py:14 | for any integer bounds, the slice is a contiguous in-bounds window of the sequence |
| `QueryParameter.GetUser` | test_fastapi/03_query_parameter.py:12-14 | the page is never longer than the database; for non-negative `skip` and `limit`, the length is `min(limit, max(0, 3 - skip))`; for `skip >= 0`, element k is item `skip + k`; a `skip` past the end gives an empty page |
| `QueryParameter.GetUserDefaults` | test_fastapi/03_query_parameter.py:6-14 | with `skip=0` and `limit=10`, all three items are returned in order |
| `QueryParameter.GetUserIsWindow` | test_fastapi/03_query_parameter.py:14 | for any `skip` and `limit`, the page is a contiguous window of the database |
| `QueryParameter.GetUserFromEnd` | test_fastapi/03_query_parameter.py:14 | a negative `skip` whose `skip + limit` reaches past the end gives the last `-skip` items |
| `QueryParameter.GetUserFromEndShort` | test_fastapi/03_query_parameter.py:14 | a negative `skip` whose `skip + limit` is a non-negative index at or before the start gives an empty page |
| `QueryParameter.GetUserLastItem` | test_fastapi/03_query_parameter.py:14 | `skip=-1, limit=10` gives `["Bax"]` |
| `QueryParameter.GetUserNegativeLimit` | test_fastapi/03_query_parameter.py:14 | `skip=0, limit=-1` gives two items, which is more than `max(0, limit)` |
| `QueryParameter.GetPage` | test_fastapi/03_query_parameter.py:13-14 | the corrected page never holds more than `max(0, limit)` items; it is empty for `skip >= 0` with `limit <= 0`; for `limit >= 0` it equals the source's page |

## Left out

- The HTTP surface is not modelled: FastAPI routing, pydantic validation, JSON responses, the `hello_world` endpoint and `uvicorn.run`. Only the success and error outcomes remain, as `Result` values. `StatusCode` gives each error its HTTP status.
- Model loading and inference are black boxes. They are function parameters, so the model treats the loader as deterministic in the model name. Every exception inside the `try` block becomes `None`, and so becomes the one 404 error.
- The inference result is a string-to-string map. A non-string `'answer'` value and pydantic's coercion of it are not modelled. A missing `'answer'` key raises an uncaught `KeyError` in the source. The model reports it as `AnswerMissing`, a 500.
- An exception raised by the inference call itself is not modelled, because `infer` is a total function. In the source it is an uncaught 500 that leaves the registry unchanged, which is observably the same as the `AnswerMissing` outcome.
- Concurrency is not modelled. `initialize_pipeline` is `async` but never awaits, so each call runs to completion. Calls are modelled one after another.
- `Analyze` has no `modifies` clause, so the verifier checks that it leaves the registry unchanged. Its contract does not state this separately.
- `QueryParameter.GetUser`: the source does not return an empty page for `skip >= 0` with a negative `limit` (see Findings). The empty-page case is proved for `limit == 0` through the length clause, and for every `limit <= 0` only about `GetPage`.
- Items of the fake database are modelled as a record with one `itemName` field, not as dictionaries.
- The BigQuery logging handler, the Streamlit front ends and their password checks are not part of this model. They are I/O, UI and library calls.

## Findings

| source | as written | input that shows it | evidently intended | confidence | as-written member | corrected member |
|---|---|---|---|---|---|---|
| test_fastapi/03_query_parameter.py:14 | `fake_item_db[skip: skip+limit]` does not check `limit`, so a negative `limit` makes the stop count from the end | `skip=0, limit=-1` reads `fake_item_db[0:-1]` and returns `Foo` and `Bar` | a page of at most `max(0, limit)` items, empty for a negative `limit` | high, not executed | `QueryParameter.GetUserNegativeLimit` | `QueryParameter.GetPage` |
