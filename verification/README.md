# Employee service: record store and cache-key invalidation

This project models the core of a small Flask service that keeps employee
records in an in-memory list and tracks cache keys for invalidation.

- **`employees`** is a list of records (`id`, `first_name`, `last_name`,
  `position`). It starts with two seed records whose ids are distinct.
- **Five handlers** act on the list: add, list a page, update, delete, and
  get by id.
- **The cache manager** holds a cache store and a separate set of recorded
  keys (`cached_keys`). `invalidate_cache(pattern)` removes every recorded
  key that starts with `pattern` from both.
- **Get-by-id** records the key `get_employee_<id>` each time it runs. A
  successful update invalidates the pattern `get_employee`.

Files:

- `wrappers.dfy`: `Option`.
- `strings.dfy`: `str.startswith` and `str(n)` for non-negative `n`. The
  decimal reader `DecimalValue` is the inverse of `str(n)`.
- `employees.dfy`: the `Employee` record and the pure reads over the list:
  - `FindIndex` is the `next(...)` lookup;
  - `Matching` is the filter comprehension;
  - `ListRemove` is `list.remove`;
  - `Paginate` is the page slice.
- `cache_manager.dfy`: the class `KeyedCache` (fields `cache: map<string, V>`
  and `cachedKeys: set<string>`), the method `InvalidateCache` with its loop,
  and the functions and lemmas that specify invalidation.
- `app.dfy`: the class `EmployeeApi`:
  - the `employees: seq<Employee>` field;
  - the invariant "ids are pairwise distinct" (`Valid`);
  - one method per handler, each returning an `Outcome` in place of an HTTP
    response (the comment on each outcome gives the HTTP status sent for it);
  - client methods that use only the handlers' contracts: two concrete
    scenarios, and add-then-get and delete-then-get over any store.

Inputs a handler gets from outside are parameters:

- The validated JSON payload is an `Option<Employee>`; `None` stands for a
  payload the validation library rejects.
- A pagination query parameter is a `QueryArg`: missing, a parsed integer, or
  text that `int()` rejects.
- A path id is a `nat`, since Flask's `int` converter accepts only digits.

Behaviour of the code worth noting:

- **Update answers with the payload.** The response is the validated payload,
  which may carry a different id. The stored record keeps its id and takes
  only the three text fields from the payload.
- **Only update invalidates.** Add and delete do not invalidate anything.
- **Empty text is accepted.** The record's text fields are plain strings, and
  the empty string passes validation.

## Model

| member | source | states |
|---|---|---|
| Strings.StartsWith | cache_manager.py:16 | `s.startswith(prefix)` holds exactly when `s` is `prefix` followed by some rest |
| Strings.NatToString | app.py:218 | `str(id)` is a non-empty digit string with no leading zero |
| Strings.DecimalRoundTrip | app.py:218 | reading back the decimal numeral of `n` gives `n` |
| Strings.NatToStringInjective | app.py:218 | different ids have different numerals |
| Employees.SeedEmployees | app.py:28-31 | the store starts with two records whose ids are distinct |
| Employees.FindAppended | app.py:75 | after appending a record whose id is new, the lookup of that id finds the appended position |
| Employees.AppendDistinct | app.py:72-75 | appending keeps ids distinct exactly when the new id is not present yet |
| Employees.FindIndex | app.py:142 | the lookup gives the first index holding the id (every earlier record has another id), or None exactly when no record has the id |
| Employees.MatchingHeadIsFirst | app.py:221-227 | the filter comprehension is empty exactly when the lookup finds nothing, and otherwise its first element is the record the lookup finds |
| Employees.Matching | app.py:221 | the filter comprehension yields at most as many records as the list has, each with the id and from the list |
| Employees.MatchingAtMostOne | app.py:221 | with distinct ids the filter yields at most one record |
| Employees.ListRemove | app.py:193 | `list.remove(x)` shortens the list by one and takes exactly one copy of `x` out of its multiset of records |
| Employees.ListRemoveFound | app.py:186-193 | removing the record the lookup found removes exactly its position, and the other records keep their order |
| Employees.RemoveAtDistinct | app.py:193 | removing one position keeps ids distinct, and afterwards no record has the removed id |
| Employees.Paginate | app.py:98-102 | for non-negative slice bounds, the page has `min(per_page, len - start)` records, none when `start` is past the end or `per_page` is not positive, so never more than `per_page`; its k-th record is record `start + k` |
| Employees.FirstPageIsAll | app.py:98-102 | a first page at least as large as the list is the whole list |
| Employees.RecordOnItsPage | app.py:98-102 | record `i` appears on page `i / per_page + 1` at offset `i % per_page` |
| CacheManager.KeysToInvalidate | cache_manager.py:16 | the collected keys are all recorded and all start with the pattern, so removing each from the recorded set cannot fail |
| CacheManager.KeysAfterInvalidate | cache_manager.py:16-19 | after invalidation a key is recorded exactly when it was recorded before and does not start with the pattern |
| CacheManager.StoreAfterInvalidate | cache_manager.py:16-18 | the store loses exactly the entries under recorded keys with the pattern; every other entry keeps its value |
| CacheManager.InvalidateIdempotent | cache_manager.py:15-19 | invalidating the same pattern twice in a row has the effect of doing it once, on both the key set and the store |
| CacheManager.InvalidateEmptyPattern | cache_manager.py:16 | the empty pattern removes every recorded key, and every store entry under a recorded key |
| CacheManager.KeyedCache.constructor | cache_manager.py:10-13 | the store and the recorded key set start empty |
| CacheManager.KeyedCache.InvalidateCache | cache_manager.py:15-19 | the new key set and store are the old ones minus the recorded keys with the pattern; no recorded key starts with the pattern afterwards |
| App.GetEmployeeKey | app.py:218 | every get-by-id key starts with `get_employee_`, and so with `get_employee`, the pattern an update invalidates |
| App.GetEmployeeKeyInjective | app.py:218 | different ids record different keys |
| App.EmployeeApi.constructor | app.py:28-31 | the service starts with the two seed records, ids distinct |
| App.EmployeeApi.IsUniqueId | app.py:35-39 | true exactly when no record has the id |
| App.EmployeeApi.AfterEmployeeAddOrUpdate | app.py:47-48 | invalidates the pattern `get_employee`, so no get-by-id key of any id stays recorded |
| App.EmployeeApi.AddEmployee | app.py:62-77 | an invalid payload gives BadRequest and a present id gives Conflict, both with the list unchanged; otherwise the record is appended at the end and returned as Created; ids stay distinct |
| App.EmployeeApi.GetEmployees | app.py:94-118 | an unparsable parameter gives BadRequest whatever the other holds; otherwise defaults are 1 and 10, and the answer is the page at `(page - 1) * per_page`, the total count and the parameters; the list is not changed |
| App.EmployeeApi.UpdateEmployee | app.py:140-156 | an absent id gives NotFound before the payload is looked at, and an invalid payload gives BadRequest, both with nothing changed; otherwise only the three text fields of that record change, at the same index; ids and length are kept; the get-by-id keys are invalidated; the payload is echoed |
| App.EmployeeApi.DeleteEmployee | app.py:184-196 | an absent id gives NotFound with nothing changed; otherwise exactly that record is removed, the others keep their order, the length drops by one, and no record has the id afterwards |
| App.EmployeeApi.GetEmployee | app.py:217-227 | records the key `get_employee_<id>` whatever the outcome, leaves the store and the list alone, and answers with the record the lookup finds, or NotFound |
| App.AddThenGet | app.py:72-77 | on any store, adding a record with a new id gives Created, and looking up its id afterwards finds that record |
| App.DeleteThenGet | app.py:186-193 | on any store, a delete succeeds exactly when the id is present, and looking up the id afterwards gives NotFound |

## Left out

- HTTP plumbing is not modelled: route registration, reading `request.json` and `request.args`, and building JSON responses (`jsonify`, `make_response`). Handlers return an `Outcome`; the comment on each of its cases gives the HTTP status the service sends.
- Payload validation by the pydantic library is a foreign library. A handler gets the decoded payload as `Option<Employee>`.
- Rate limiting (`flask_limiter`, app.py:12, 53, 84, 131, 176, 208) is configured only through decorator strings and depends on time.
- The caching library's internals are not modelled: entry expiry (the timeouts at app.py:82 and cache_manager.py:8), the memoize key scheme, and read-through caching.
  - The cache decorators sit above the route decorators, so the routes serve the unwrapped functions, and no route reads from the cache.
  - `get_employee_by_id` (app.py:41-45) is never called.
  - The model keeps the store as a map and models only deletion from it.
- The `except Exception` branches that answer 500 are not modelled. Neither are the log and `print` calls.
- App.EmployeeApi.GetEmployees: when both parameters parse, requires the slice bounds `start = (page - 1) * per_page` and `end = start + per_page` to be non-negative. A negative bound makes Python count from the end of the list, which is not modelled. A parameter that does not parse gives BadRequest whatever the other one holds.
- Records are values in a sequence. The source mutates the record object in place on update; the model replaces the element at its index. Nothing else holds a reference to a record between requests, so no aliasing is lost.
- Requests are modelled one at a time. The source takes no lock, and a threaded server can interleave handlers (for example, two adds of the same id can both pass `is_unique_id`). The model does not capture that.
- The load-test script (`api-perf-testing/locustfile.py`) drives the service over the network and is not part of this model.
