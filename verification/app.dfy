/**
 * The employee service: an in-memory list of employee records with five
 * request handlers (add, list, update, delete, get by id) and the cache
 * bookkeeping they do. HTTP transport, payload validation and rate limiting
 * are abstracted away: a handler receives its already-decoded inputs and
 * returns an Outcome in place of an HTTP response.
 */
module App {
  import opened Wrappers
  import opened Strings
  import opened Employees
  import opened CacheManager

  /** What a handler answers; each comment gives the HTTP status the service sends for it. */
  datatype Outcome =
    | Created(employee: Employee)  // 201
    | Found(employee: Employee)    // 200
    | Updated(employee: Employee)  // 200
    | Deleted                      // 200
    | Listed(data: seq<Employee>, totalEmployees: nat, page: int, perPage: int)  // 200
    | BadRequest                   // 400
    | NotFound                     // 404
    | Conflict                     // 409

  /** A pagination query parameter: missing, a parsed integer, or text `int()` rejects. */
  datatype QueryArg = Absent | Given(value: int) | Malformed

  /** The parameter's value, or `default` when it is missing. */
  function ArgOr(arg: QueryArg, default: int): int
    requires !arg.Malformed?
  {
    if arg.Given? then arg.value else default
  }

  const DefaultPage := 1
  const DefaultPerPage := 10

  /** The pattern a successful update invalidates. */
  const GetEmployeePrefix := "get_employee"

  /**
   * The cache key get-by-id records: `f'get_employee_{employee_id}'`. It
   * falls under the pattern an update invalidates.
   */
  function GetEmployeeKey(employeeId: nat): (r: string)
    ensures StartsWith(r, "get_employee_") && StartsWith(r, GetEmployeePrefix)
  {
    assert ("get_employee_" + NatToString(employeeId))[..|GetEmployeePrefix|] == GetEmployeePrefix;
    "get_employee_" + NatToString(employeeId)
  }

  /** Different ids record different keys. */
  lemma GetEmployeeKeyInjective(m: nat, n: nat)
    requires GetEmployeeKey(m) == GetEmployeeKey(n)
    ensures m == n
  {
    var p := "get_employee_";
    assert NatToString(m) == GetEmployeeKey(m)[|p|..];
    assert NatToString(n) == GetEmployeeKey(n)[|p|..];
    NatToStringInjective(m, n);
  }

  /** The service state: the `employees` list, and the cache manager it shares. */
  class EmployeeApi {
    var employees: seq<Employee>
    const caches: KeyedCache<Outcome>

    /** No two records share an id. */
    ghost predicate Valid()
      reads this
    {
      DistinctIds(employees)
    }

    /** The service as it starts: the two seed records. */
    constructor (caches: KeyedCache<Outcome>)
      ensures Valid()
      ensures employees == SeedEmployees() && this.caches == caches
    {
      employees := SeedEmployees();
      this.caches := caches;
    }

    /** `is_unique_id`: true exactly when no record has the id. */
    method IsUniqueId(employeeId: int) returns (unique: bool)
      ensures unique <==> !HasId(employees, employeeId)
    {
      for k := 0 to |employees|
        invariant forall j :: 0 <= j < k ==> employees[j].id != employeeId
      {
        if employees[k].id == employeeId {
          return false;
        }
      }
      return true;
    }

    /** `after_employee_add_or_update`: drop every recorded get-by-id key. */
    method AfterEmployeeAddOrUpdate()
      modifies caches
      ensures caches.cachedKeys == KeysAfterInvalidate(old(caches.cachedKeys), GetEmployeePrefix)
      ensures caches.cache == StoreAfterInvalidate(old(caches.cache), old(caches.cachedKeys), GetEmployeePrefix)
      ensures forall id: nat :: GetEmployeeKey(id) !in caches.cachedKeys
    {
      caches.InvalidateCache(GetEmployeePrefix);
    }

    /**
     * POST: an invalid payload is refused, a taken id is a conflict, and
     * otherwise the record is appended at the end.
     */
    method AddEmployee(payload: Option<Employee>) returns (outcome: Outcome)
      requires Valid()
      modifies this
      ensures Valid()
      ensures payload.None? ==> outcome == BadRequest && employees == old(employees)
      ensures payload.Some? && HasId(old(employees), payload.value.id) ==>
        outcome == Conflict && employees == old(employees)
      ensures payload.Some? && !HasId(old(employees), payload.value.id) ==>
        outcome == Created(payload.value) && employees == old(employees) + [payload.value]
    {
      if payload.None? {
        return BadRequest;
      }
      var newEmployee := payload.value;
      var unique := IsUniqueId(newEmployee.id);
      if !unique {
        return Conflict;
      }
      AppendDistinct(employees, newEmployee);
      employees := employees + [newEmployee];
      return Created(newEmployee);
    }

    /**
     * GET list: a malformed parameter is refused; otherwise the page at
     * `(page - 1) * per_page`, with the total count and the parameters used.
     */
    method GetEmployees(pageArg: QueryArg, perPageArg: QueryArg) returns (outcome: Outcome)
      requires !pageArg.Malformed? && !perPageArg.Malformed? ==>
        SliceBoundsNonNegative(ArgOr(pageArg, DefaultPage), ArgOr(perPageArg, DefaultPerPage))
      ensures pageArg.Malformed? || perPageArg.Malformed? ==> outcome == BadRequest
      ensures !pageArg.Malformed? && !perPageArg.Malformed? ==>
        var page := ArgOr(pageArg, DefaultPage);
        var perPage := ArgOr(perPageArg, DefaultPerPage);
        outcome == Listed(Paginate(employees, page, perPage), |employees|, page, perPage)
    {
      if pageArg.Malformed? || perPageArg.Malformed? {
        return BadRequest;
      }
      var page := ArgOr(pageArg, DefaultPage);
      var perPage := ArgOr(perPageArg, DefaultPerPage);
      var paginated := Paginate(employees, page, perPage);
      return Listed(paginated, |employees|, page, perPage);
    }

    /**
     * PUT: an unknown id is not found (before the payload is looked at); an
     * invalid payload is refused; otherwise the record's names and position
     * are overwritten in place, its id kept, and the get-by-id keys are
     * invalidated. The answer echoes the payload.
     */
    method UpdateEmployee(employeeId: nat, payload: Option<Employee>) returns (outcome: Outcome)
      requires Valid()
      modifies this, caches
      ensures Valid()
      ensures |employees| == |old(employees)|
      ensures forall k :: 0 <= k < |employees| ==> employees[k].id == old(employees)[k].id
      ensures FindIndex(old(employees), employeeId).None? ==>
        outcome == NotFound && employees == old(employees)
        && caches.cachedKeys == old(caches.cachedKeys) && caches.cache == old(caches.cache)
      ensures FindIndex(old(employees), employeeId).Some? && payload.None? ==>
        outcome == BadRequest && employees == old(employees)
        && caches.cachedKeys == old(caches.cachedKeys) && caches.cache == old(caches.cache)
      ensures FindIndex(old(employees), employeeId).Some? && payload.Some? ==>
        var i := FindIndex(old(employees), employeeId).value;
        var p := payload.value;
        && outcome == Updated(p)
        && employees == old(employees)[i := Employee(employeeId, p.firstName, p.lastName, p.position)]
        && caches.cachedKeys == KeysAfterInvalidate(old(caches.cachedKeys), GetEmployeePrefix)
        && caches.cache == StoreAfterInvalidate(old(caches.cache), old(caches.cachedKeys), GetEmployeePrefix)
        && forall id: nat :: GetEmployeeKey(id) !in caches.cachedKeys
    {
      var found := FindIndex(employees, employeeId);
      if found.None? {
        return NotFound;
      }
      if payload.None? {
        return BadRequest;
      }
      var i := found.value;
      var updatedEmployee := payload.value;
      var existing := employees[i];
      employees := employees[i := existing.(firstName := updatedEmployee.firstName,
                                            lastName := updatedEmployee.lastName,
                                            position := updatedEmployee.position)];
      AfterEmployeeAddOrUpdate();
      return Updated(updatedEmployee);
    }

    /**
     * DELETE: an unknown id is not found; otherwise that record is removed,
     * the others keeping their order, and no record has the id any more.
     */
    method DeleteEmployee(employeeId: nat) returns (outcome: Outcome)
      requires Valid()
      modifies this
      ensures Valid()
      ensures FindIndex(old(employees), employeeId).None? ==>
        outcome == NotFound && employees == old(employees)
      ensures FindIndex(old(employees), employeeId).Some? ==>
        var i := FindIndex(old(employees), employeeId).value;
        && outcome == Deleted
        && employees == old(employees)[..i] + old(employees)[i + 1..]
        && |employees| == |old(employees)| - 1
      ensures !HasId(employees, employeeId)
    {
      var found := FindIndex(employees, employeeId);
      if found.None? {
        return NotFound;
      }
      var i := found.value;
      var existing := employees[i];
      ListRemoveFound(employees, employeeId, i);
      RemoveAtDistinct(employees, i);
      employees := ListRemove(employees, existing);
      return Deleted;
    }

    /**
     * GET by id: records the key for the id whatever the outcome, then
     * answers with the first record with the id, or not found.
     */
    method GetEmployee(employeeId: nat) returns (outcome: Outcome)
      modifies caches
      ensures caches.cachedKeys == old(caches.cachedKeys) + {GetEmployeeKey(employeeId)}
      ensures caches.cache == old(caches.cache)
      ensures FindIndex(employees, employeeId).None? ==> outcome == NotFound
      ensures FindIndex(employees, employeeId).Some? ==>
        outcome == Found(employees[FindIndex(employees, employeeId).value])
    {
      var cacheKey := GetEmployeeKey(employeeId);
      caches.cachedKeys := caches.cachedKeys + {cacheKey};
      var matchingEmployees := Matching(employees, employeeId);
      MatchingHeadIsFirst(employees, employeeId);
      if |matchingEmployees| == 0 {
        return NotFound;
      }
      return Found(matchingEmployees[0]);
    }
  }

  /** Adding a record under a seed id is a conflict; listing with defaults shows both seeds. */
  method SeedScenario()
  {
    var caches := new KeyedCache<Outcome>();
    var api := new EmployeeApi(caches);
    assert HasId(api.employees, 1) by {
      assert api.employees[0].id == 1;
    }
    var duplicate := api.AddEmployee(Some(Employee(1, "Michael", "Johnson", "Developer")));
    assert duplicate == Conflict;

    var listed := api.GetEmployees(Absent, Absent);
    FirstPageIsAll(api.employees, 10);
    assert listed == Listed(SeedEmployees(), 2, 1, 10);
  }

  /**
   * An end-to-end scenario: add id 3, look it up, update its position,
   * look it up again, delete it, and look it up a last time.
   */
  method LifecycleScenario()
  {
    var caches := new KeyedCache<Outcome>();
    var api := new EmployeeApi(caches);
    var mike := Employee(3, "Mike", "Johnson", "Developer");
    var lead := Employee(3, "Mike", "Johnson", "Lead Developer");

    assert FindIndex(SeedEmployees(), 3) == None;
    var created := api.AddEmployee(Some(mike));
    assert created == Created(mike);
    assert api.employees == SeedEmployees() + [mike];
    assert api.employees[2].id == 3;
    assert FindIndex(api.employees, 3) == Some(2);

    var found := api.GetEmployee(3);
    assert found == Found(mike);

    var updated := api.UpdateEmployee(3, Some(lead));
    assert updated == Updated(lead);
    assert api.employees == SeedEmployees() + [lead];
    assert GetEmployeeKey(3) !in caches.cachedKeys;
    assert api.employees[2].id == 3;
    assert FindIndex(api.employees, 3) == Some(2);

    found := api.GetEmployee(3);
    assert found == Found(lead);

    var deleted := api.DeleteEmployee(3);
    assert deleted == Deleted;
    found := api.GetEmployee(3);
    assert found == NotFound;
  }

  /** For any store and any new record: once it is added, looking up its id finds it. */
  method AddThenGet(api: EmployeeApi, p: Employee) returns (added: Outcome, found: Outcome)
    requires api.Valid() && p.id >= 0
    modifies api, api.caches
    ensures api.Valid()
    ensures added == Created(p) ==> found == Found(p)
    ensures !HasId(old(api.employees), p.id) ==> added == Created(p)
  {
    ghost var before := api.employees;
    added := api.AddEmployee(Some(p));
    if added == Created(p) {
      FindAppended(before, p);
    }
    found := api.GetEmployee(p.id);
  }

  /** For any store and any id: after a delete, looking up the id finds nothing. */
  method DeleteThenGet(api: EmployeeApi, employeeId: nat) returns (deleted: Outcome, found: Outcome)
    requires api.Valid()
    modifies api, api.caches
    ensures api.Valid()
    ensures found == NotFound
    ensures deleted == Deleted <==> HasId(old(api.employees), employeeId)
  {
    deleted := api.DeleteEmployee(employeeId);
    found := api.GetEmployee(employeeId);
  }
}
