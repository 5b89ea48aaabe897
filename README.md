# ISS tracker telemetry store, modelled in Dafny

The ISS tracker is a small Flask service. It downloads NASA's OEM ephemeris
for the International Space Station and keeps the list of state vectors in a
global variable `data`. Each state vector has an `EPOCH` timestamp, a position
and a velocity. The routes read that list, delete it (`del data`), or fetch it
again. This project models that store and its routes:

- `telemetry.dfy` (module `Telemetry`) holds the values. A `Record` is one state vector. `Store = Option<seq<Record>>` is the global `data`, with `None` for the state after `del data`. `Arg` is a query-string argument as Python's `int()` sees it. `Outcome` gives the distinct replies of the read routes: a value, "Bad input", "Data has been deleted" or "Epoch not found".
- `queries.dfy` (module `Queries`) gives reference definitions of what each route answers for a given store. These are `Snapshot`, `ListEpochs`/`Page`, `Lookup`/`FirstMatch`, `SpeedAt` and `DeleteStep`. The module also proves the properties of those answers.
- `tracker.dfy` (module `Tracker`) holds the class `IssTracker` with the field `data`. Its methods mirror the route handlers, loops included. Each read method is proved to return exactly the reference answer. The read methods have no `modifies` clause, so no read can change the store. `DeleteData` and `PostData` state the new store.

Three behaviours of the code that a reader might not expect, all kept in the model:

- An absent store makes /epochs answer "Data has been deleted" even when `limit` or `offset` is not an integer. The reason is that `len(data)` is evaluated as the default of `request.args.get` before `int()` sees the argument.
- `limit` and `offset` are not checked for being non-negative. A negative `limit` returns the whole tail from the offset, because the counter never equals it. A negative `offset` behaves like 0.
- A present store may hold an empty list. Nothing in the code rejects one.

## Model

| member | source | states |
|---|---|---|
| Queries.ListEpochs | iss_tracker.py:60-86 | /epochs answers "deleted" exactly when the store is absent. It answers "Bad input" exactly when the store is present and `limit` or `offset` is not an integer. It never answers "Epoch not found". Otherwise it returns the page of epochs. |
| Queries.ParseArg | iss_tracker.py:62-72 | `int(request.args.get(name, default))`: no value exactly when the argument is not an integer, which is the `ValueError` branch. Otherwise the value is the given integer, or the default when the argument is missing. |
| Queries.Page | iss_tracker.py:75-86 | The list the loop builds. Entry `j` is the EPOCH of record `Start + j`, the page stays inside the stored list, and with `limit >= 0` it has at most `limit` entries. |
| Queries.CollectedIsPage | iss_tracker.py:75-86 | Wherever the loop stops, what it has collected is exactly the page. It stops either because the records ran out or because `limit` equals the count of collected entries. |
| Queries.PageLength | iss_tracker.py:75-86 | With `limit >= 0` the page has `min(limit, max(0, N - max(offset, 0)))` entries. |
| Queries.PageAt | iss_tracker.py:78-83 | Entry `j` of a page is the EPOCH of record `max(offset, 0) + j`. The page is therefore a contiguous slice in stored order. |
| Queries.ListAllByDefault | iss_tracker.py:62-72 | With neither argument given, `limit` is `len(data)` and `offset` is 0, and /epochs returns every EPOCH in stored order. |
| Queries.NegativeLimitTakesTail | iss_tracker.py:79-80 | A negative `limit` never stops the loop, so the whole tail from the offset is returned. |
| Queries.NegativeOffsetIsZero | iss_tracker.py:81-83 | A negative `offset` selects the same page as offset 0. |
| Queries.PagesConcatenate | iss_tracker.py:75-86 | The page of `a` entries at `offset`, followed by the page of `b` entries at `offset + a`, is the page of `a + b` entries at `offset`. Paging through /epochs therefore neither skips nor repeats an epoch. |
| Queries.FirstMatch | iss_tracker.py:104-106 | Returns the index of the first record whose EPOCH equals the query, with no earlier match. It returns none exactly when no record matches. |
| Queries.Lookup | iss_tracker.py:103-110 | /epochs/<epoch> answers "deleted" exactly when the store is absent. It answers "Epoch not found" exactly when the store is present and no record matches. Otherwise it returns the first matching record, which carries the queried EPOCH. It never answers "Bad input". |
| Queries.SpeedSquared | iss_tracker.py:130-133 | The sum of the squared velocity components, taken before the square root. It is never negative. |
| Queries.SpeedAt | iss_tracker.py:127-138 | The speed route's answer. When it returns a squared speed, that value is non-negative. |
| Queries.SpeedAgreesWithLookup | iss_tracker.py:127-138 | The speed route finds a record exactly when the lookup route does, and reports "deleted" or "Epoch not found" under the same conditions. When it finds a record, it reports that record's squared speed. |
| Queries.Snapshot | iss_tracker.py:41-46 | / returns the stored list unchanged when the store is present. Otherwise it returns only the "deleted" outcome. |
| Queries.DeleteStep | iss_tracker.py:152-157 | The `del data` transition: the store becomes absent, and the report is success exactly when the store was present. |
| Queries.DeleteIdempotent | iss_tracker.py:152-157 | Delete always leaves the store absent. It reports success exactly when the store was present. A second delete reports "already deleted" and leaves the store as it was. |
| Queries.ReadsWhenDeleted | iss_tracker.py:41-138 | With the store absent, /, /epochs, /epochs/<epoch> and /speed all answer "deleted". None of them returns data or "Epoch not found". |
| Queries.ReadsWhenPresent | iss_tracker.py:41-110 | While a fetched list is stored, whether at start-up or by /post-data, / returns it, /epochs with no arguments returns all of its epochs, and a lookup never answers "deleted". |
| Tracker.IssTracker.constructor | iss_tracker.py:27 | At start-up the store holds the fetched list. |
| Tracker.IssTracker.Location | iss_tracker.py:41-46 | Returns the `Snapshot` of the current store. |
| Tracker.IssTracker.AllEpochs | iss_tracker.py:60-86 | The counter loop, with its `break` and its skipping of records before `offset`, returns exactly `ListEpochs` of the current store and arguments. |
| Tracker.IssTracker.SpecEpoch | iss_tracker.py:101-110 | The early-return scan returns exactly `Lookup` of the current store. |
| Tracker.IssTracker.EpochSpeed | iss_tracker.py:126-138 | The early-return scan returns exactly `SpeedAt` of the current store. |
| Tracker.IssTracker.DeleteData | iss_tracker.py:152-157 | The store becomes absent. The report is success exactly when the store was present before, and "already deleted" otherwise. |
| Tracker.IssTracker.PostData | iss_tracker.py:172-175 | The store becomes present and holds exactly the fetched list, whatever it held before. |

## Left out

- `get_data` (iss_tracker.py:11-25) is left out. It fetches the OEM XML over HTTP and parses it with `xmltodict`. The fetched list is a parameter of the constructor and of `PostData`, so network and parse failures are not modelled.
- The Flask application, the route decorators, HTTP status codes and `app.run` are left out. They are transport. Only the distinct kinds of reply are kept.
- The Python `int()` string grammar is left out. Each argument arrives already classified as missing, an integer, or not an integer.
- Tracker.IssTracker.EpochSpeed and Queries.SpeedAt return the squared speed as an exact real. They omit `math.sqrt`, floating-point rounding, and the `float()` parse of the X_DOT/Y_DOT/Z_DOT text. A parse failure in the source is uncaught and becomes a server error, and that is not modelled either.
- Records always have an EPOCH. A record without one would raise an uncaught `KeyError` in the source.
- The `help` route (iss_tracker.py:177-211) is left out because it returns a fixed string.
- Geodetic latitude/longitude/altitude, the nearest-to-now search and reverse geocoding are not part of this model. No code for them appears in iss_tracker.py.
- Concurrent requests against the global `data` are not modelled. Every route is a sequential call on one `IssTracker`.
