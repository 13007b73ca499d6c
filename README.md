# Response prediction service: request handlers

This project models the request-decision layer of a small prediction
service. At start-up the service loads two tables: a *results* table of
scored records keyed by an integer `id`, and a *text* table of described
records. It also reads a static table mapping user names to plain-text
passwords. The model covers three HTTP handlers and the credential check
they share:

- `GET /get_random_records` (`Handlers.GetRandomRecords`) checks the
  `username`/`password` query parameters. For a valid pair it returns 50
  rows of the results table, sampled without replacement.
- `GET /get_prediction` (`Handlers.GetPrediction`) reads the `id` query
  parameter as an integer. It returns every results row with that `id`,
  cut down to eight prediction columns.
- `POST /post_predictions` (`Handlers.AuthenticateUser`) answers a JSON
  list of credential items one by one. A valid item gets the projected text
  table. An invalid item gets an error object.

The tables and the credential table are inputs to the handlers. Nothing is
mutated while a request is handled.

Module layout:

- `wrappers.dfy`: `Option`, used for absent parameters and failed
  conversions.
- `tables.dfy`: the two row types and their column projections. It also
  defines the filter on the `id` column and proves its lemmas.
- `credentials.dfy`: the credential check.
- `int_parse.dfy`: the `int(id)` conversion. `ShowInt` (decimal rendering)
  is its partner, and the round trip between them is proved.
- `sampling.dfy`: sampling without replacement. It is a method that draws
  distinct row positions through a nondeterministic choice. No random
  generator is modelled.
- `handlers.dfy`: the three handlers, their status codes and their
  messages.

Two consequences of the code are worth knowing:

- The lookup returns every row carrying the requested `id`. When ids
  repeat, that is more than one row. A 200 answer is never empty, because
  an `id` that no row carries is answered 404 first.
- `get_random_records` rejects an empty password with 400 before it checks
  credentials, so a user configured with an empty password can never use
  that endpoint. The batch endpoint compares the empty string like any
  other password, so that user can authenticate there
  (`Credentials.Authenticates`, `Handlers.EntryFor`).

## Model

| member | source | states |
|---|---|---|
| `Credentials.Authenticates` | main.py:69-70 | the shared credential test; a pair that passes has both fields present, its user name a key of the table and its password one of the stored passwords, so an absent field never passes |
| `Credentials.AuthenticatesIffEntry` | main.py:69-70 | a (user name, password) pair passes the check exactly when it is an entry of the credential table; the same test is used at lines 122-123 |
| `Handlers.GetRandomRecords` | main.py:61-80 | a missing or empty user name or password (its helper `MissingOrEmpty` is Python's `not` on an optional string) gives 400 with the "provide both" message, whatever the credential table holds; otherwise a pair outside the table gives 403 "Invalid username or password"; a valid pair with fewer than 50 rows gives 500; status 200 happens exactly for a valid pair and at least 50 rows, and its body is `Pick` of the table at 50 distinct positions (the row at each drawn position, in drawing order), a sub-multiset of the table |
| `Sampling.SampleIndices` | main.py:73 | sampling 50 rows without replacement fails exactly when the table has fewer rows than that; otherwise it yields that many distinct in-range positions |
| `Sampling.PickIsSubMultiset` | main.py:73-74 | the rows `Pick` takes at distinct positions never include a row more often than the table does |
| `Sampling.FreeIndexExists` | main.py:73 | while fewer positions than rows have been drawn, an undrawn position remains, so sampling without replacement can always continue |
| `Handlers.GetPrediction` | main.py:84-103 | 400 exactly when `id` is absent; 500 exactly when it is present but does not convert to an integer; 404 exactly when it converts to an integer that no row carries; otherwise 200 with a non-empty list, namely the eight-column projection of the rows with that `id` in table order, each carrying that `id` |
| `Handlers.EmptyIdIsServerError` | main.py:85-103 | an empty `id` parameter counts as present, so it gives 500 with the processing-error message, not 400 |
| `Handlers.SeparatorIdIsServerError` | main.py:90-103 | an `id` that starts with any of the control characters U+001C to U+001F, whatever follows, fails `int(id)` inside the try, so the lookup answers 500 with the processing-error message |
| `Handlers.LookupOfRenderedId` | main.py:92-100 | looking up the decimal rendering of an integer gives 200 exactly when some row carries it (404 otherwise); the body projects those rows, each as often as the table holds it |
| `IntParse.ParseInt` | main.py:92 | any string the conversion accepts contains a decimal digit, so the empty string is refused |
| `IntParse.ParseShowRoundTrip` | main.py:92 | the conversion reads back the decimal rendering of every integer, negative ones included |
| `IntParse.SeparatorIsNotPadding` | main.py:92 | a leading U+001C to U+001F is not skipped as padding, so the conversion refuses the string whatever follows |
| `IntParse.ParseIgnoresPadding` | main.py:92 | padding around the number does not change the result of the conversion; the padding is tab, line feed, vertical tab, form feed, carriage return, space, or a Unicode white-space character at or above code point 127 |
| `Tables.RowsWithId` | main.py:97 | the boolean-mask filter `df['id'] == n`: never longer than the table, and every row it keeps carries that `id` |
| `Tables.RowsWithIdMembership` | main.py:97 | the filter keeps a row exactly when it is in the table and its `id` is the requested one |
| `Tables.RowsWithIdAppend` | main.py:97 | filtering distributes over concatenation, so the kept rows stay in table order |
| `Tables.RowsWithIdEmptyIffAbsent` | main.py:92-97 | the filter is empty exactly when no row carries the `id`, so the 404 test and the filter agree |
| `Tables.RowsWithIdCount` | main.py:97 | each row with the requested `id` is kept as many times as it occurs in the table |
| `Tables.ProjectPredictions` | main.py:97-99 | the lookup's projection keeps one record per row, in order; each record holds exactly the eight columns `id`, `actual_response`, `response_score` and the five prediction columns of its row |
| `Tables.TextProjection` | main.py:125-130 | the batch projection keeps one record per text row, in order; each record holds the twelve listed columns of its row |
| `Handlers.BatchEntries` | main.py:116-136 | the batch answer has exactly one entry per item |
| `Handlers.BatchEntryAt` | main.py:118-136 | entry `i` of the batch answer is `EntryFor` of item `i` alone: the projected text table if item `i` authenticates, and the "Invalid username or password" error otherwise |
| `Handlers.BatchEntriesAppend` | main.py:116-138 | answering a concatenation of item lists is concatenating their answers, so order is kept and no item affects another |
| `Handlers.BatchItemIndependence` | main.py:118-136 | two batches that agree on item `i` get the same entry at `i`, whatever the other items are |
| `Handlers.AllInvalidAllErrors` | main.py:134-136 | a batch in which no item authenticates is answered with error entries only |
| `Handlers.BatchResponse` | main.py:115-142 | the batch endpoint's answer: 400 with the "Expected a list" message exactly when the body is not a list; otherwise 200 with one entry per item |
| `Handlers.AuthenticateUser` | main.py:107-142 | a body that is not a list gives one 400 "Expected a list" error and no per-item processing; a list gives 200 with one entry per item, in input order; each entry is the answer for its own item |

## Left out

- Creating the log directory, the log handlers and log rotation
  (main.py:9-29): these are I/O only. No log output is modelled.
- Reading the configuration and loading the two CSV files, including the
  fatal re-raise (main.py:31-44). The tables and the credential map are
  inputs. The credential map is the one the configuration reader produces,
  so its keys are already in that reader's normalised (lower-case) form.
- `column_format` (main.py:47-57): it formats floats with five decimals.
  `response_score` and every other non-`id` cell is an opaque string.
- Flask routing, the decoding of query strings and JSON bodies, `jsonify`,
  and `app.run` with its host, port and debug settings (main.py:60, 83,
  106, 144-149).
- Bodies that are not JSON: what happens depends on the request and the
  Flask version, when the handler reads `request.json` at main.py:109.
  A body declared as JSON that does not decode makes that read raise a
  client error in every version. A body whose content type is not JSON
  also makes it raise in recent versions. The framework answers both
  errors itself, and those answers are not modelled. Only in versions
  before 2.1, a body whose content type is not JSON reads as `None`. That
  fails the list test and gets the handler's own 400 (main.py:140-142);
  in the model it is `NotAList`.
- Randomness and order in `df.sample`: the drawn positions are a
  nondeterministic choice. Uniformity is not modelled.
- Missing columns: the 500 answers that a missing column would cause
  (main.py:101-103 and 131-133) are not modelled. The row types carry every
  column that is projected, so in the model the projections cannot fail and
  the batch endpoint's per-item processing-error entry is unreachable.
- Batch items that are not JSON objects, and `username` values that are
  lists or objects: `item.get` at main.py:119-120, and the dictionary
  lookup at line 123, raise outside any `try`, so the framework's generic
  500 answers the whole request. Items are modelled as records whose two
  fields are absent or strings. Other scalar field values can never match a
  table entry, just like an absent field.
- `IntParse.ParseInt` handles ASCII digits only. Python's `int()` also
  accepts non-ASCII decimal digits, and recent versions refuse strings of
  more than 4300 digits. Neither is modelled.
- Integer width of the `id` column: `id` is an unbounded integer. The
  64-bit storage of the column and the comparison of out-of-range integers
  against it are not modelled.
