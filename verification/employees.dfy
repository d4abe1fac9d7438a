/**
 * Employee records and the read-only queries the request handlers run over
 * the list of records: the first record with an id (`next(...)`), the
 * records with an id (a list comprehension), removal of a record
 * (`list.remove`) and a page of the list (a slice).
 */
module Employees {
  import opened Wrappers

  /** One employee record: an integer id and three text fields. */
  datatype Employee = Employee(id: int, firstName: string, lastName: string, position: string)

  /** No two records in `s` share an id. */
  ghost predicate DistinctIds(s: seq<Employee>)
  {
    forall i, j :: 0 <= i < j < |s| ==> s[i].id != s[j].id
  }

  /** Some record in `s` has id `id`. */
  ghost predicate HasId(s: seq<Employee>, id: int)
  {
    exists i :: 0 <= i < |s| && s[i].id == id
  }

  /** The two records the store starts with. */
  function SeedEmployees(): (s: seq<Employee>)
    ensures |s| == 2 && DistinctIds(s)
  {
    [ Employee(1, "John", "Doe", "Engineer"),
      Employee(2, "Jane", "Doe", "Manager") ]
  }

  /** After an append, the lookup of a new id finds the appended record. */
  lemma FindAppended(s: seq<Employee>, e: Employee)
    requires !HasId(s, e.id)
    ensures FindIndex(s + [e], e.id) == Some(|s|)
  {
    assert (s + [e])[|s|].id == e.id;
  }

  /** Appending a record keeps ids distinct exactly when its id is new. */
  lemma AppendDistinct(s: seq<Employee>, e: Employee)
    requires DistinctIds(s)
    ensures DistinctIds(s + [e]) <==> !HasId(s, e.id)
  {
    if !DistinctIds(s + [e]) {
      var i, j :| 0 <= i < j < |s| + 1 && (s + [e])[i].id == (s + [e])[j].id;
      assert s[i].id == e.id;
    }
    if HasId(s, e.id) {
      var i :| 0 <= i < |s| && s[i].id == e.id;
      assert (s + [e])[i].id == (s + [e])[|s|].id;
    }
  }

  /**
   * The index of the first record with id `id`, or None: the lookup
   * `next((e for e in employees if e.id == id), None)`.
   */
  function FindIndex(s: seq<Employee>, id: int): (r: Option<nat>)
    ensures r.Some? ==> r.value < |s| && s[r.value].id == id
    ensures r.Some? ==> forall j :: 0 <= j < r.value ==> s[j].id != id
    ensures r.None? <==> !HasId(s, id)
  {
    if |s| == 0 then None
    else if s[0].id == id then Some(0)
    else match FindIndex(s[1..], id)
      case None =>
        assert forall j :: 1 <= j < |s| ==> s[j].id == s[1..][j - 1].id;
        None
      case Some(i) => Some(i + 1)
  }

  /**
   * The records with id `id`, in list order: `[e for e in employees if e.id == id]`.
   * Every record it yields has the id and is in the list.
   */
  function Matching(s: seq<Employee>, id: int): (r: seq<Employee>)
    ensures |r| <= |s|
    ensures forall e :: e in r ==> e.id == id && e in s
  {
    if |s| == 0 then []
    else if s[0].id == id then [s[0]] + Matching(s[1..], id)
    else Matching(s[1..], id)
  }

  /** The filter is empty exactly when the lookup finds nothing, and otherwise starts with the record found. */
  lemma {:induction false} MatchingHeadIsFirst(s: seq<Employee>, id: int)
    ensures FindIndex(s, id).None? <==> Matching(s, id) == []
    ensures FindIndex(s, id).Some? ==> Matching(s, id)[0] == s[FindIndex(s, id).value]
  {
    if |s| > 0 && s[0].id != id {
      MatchingHeadIsFirst(s[1..], id);
    }
  }

  /** With distinct ids the filter yields at most one record. */
  lemma {:induction false} MatchingAtMostOne(s: seq<Employee>, id: int)
    requires DistinctIds(s)
    ensures |Matching(s, id)| <= 1
  {
    if |s| > 0 {
      MatchingAtMostOne(s[1..], id);
      if s[0].id == id {
        assert !HasId(s[1..], id) by {
          forall j | 0 <= j < |s[1..]| ensures s[1..][j].id != id {
            assert s[1..][j] == s[j + 1];
          }
        }
        MatchingHeadIsFirst(s[1..], id);
      }
    }
  }

  /** `list.remove(x)`: remove the first element equal to `x`. */
  function ListRemove(s: seq<Employee>, x: Employee): (r: seq<Employee>)
    requires x in s
    ensures |r| == |s| - 1
    ensures multiset(r) == multiset(s) - multiset{x}
  {
    if s[0] == x then
      assert s == [s[0]] + s[1..];
      s[1..]
    else
      assert s == [s[0]] + s[1..];
      [s[0]] + ListRemove(s[1..], x)
  }

  /**
   * Removing the record the lookup found removes exactly that position:
   * no earlier record has its id, so none equals it.
   */
  lemma {:induction false} ListRemoveFound(s: seq<Employee>, id: int, i: nat)
    requires FindIndex(s, id) == Some(i)
    ensures i < |s| && s[i] in s
    ensures ListRemove(s, s[i]) == s[..i] + s[i + 1..]
  {
    if i > 0 {
      var t := s[1..];
      FindIndexInTail(s, id, i);
      ListRemoveFound(t, id, i - 1);
      assert ListRemove(s, s[i]) == [s[0]] + ListRemove(t, s[i]);
      SpliceTail(s, i);
    }
  }

  /** A lookup that passes over the first record finds one position earlier in the tail. */
  lemma FindIndexInTail(s: seq<Employee>, id: int, i: nat)
    requires FindIndex(s, id) == Some(i) && i > 0
    ensures s[0] != s[i] && s[1..][i - 1] == s[i]
    ensures FindIndex(s[1..], id) == Some(i - 1)
  {
  }

  lemma SpliceTail(s: seq<Employee>, i: nat)
    requires 0 < i < |s|
    ensures s[..i] + s[i + 1..] == [s[0]] + (s[1..][..i - 1] + s[1..][i..])
  {
    assert s[..i] == [s[0]] + s[1..][..i - 1];
  }

  /** Removing one position keeps ids distinct and drops the id held there. */
  lemma RemoveAtDistinct(s: seq<Employee>, i: nat)
    requires DistinctIds(s) && i < |s|
    ensures DistinctIds(s[..i] + s[i + 1..])
    ensures !HasId(s[..i] + s[i + 1..], s[i].id)
  {
  }

  function Min(a: int, b: int): int
  {
    if a <= b then a else b
  }

  /**
   * The page parameters give slice bounds `start = (page - 1) * per_page`
   * and `end = start + per_page` that are both non-negative, so the slice
   * never counts from the end of the list.
   */
  predicate SliceBoundsNonNegative(page: int, perPage: int)
  {
    (page - 1) * perPage >= 0 && (page - 1) * perPage + perPage >= 0
  }

  /**
   * One page of the list: `employees[start:end]` with
   * `start = (page - 1) * per_page` and `end = start + per_page`. It has
   * `min(per_page, len - start)` records, none when `start` is past the end
   * or `per_page` is not positive, and its k-th record is record `start + k`.
   */
  function Paginate(s: seq<Employee>, page: int, perPage: int): (r: seq<Employee>)
    requires SliceBoundsNonNegative(page, perPage)
    ensures perPage >= 0 ==> |r| <= perPage
    ensures |r| == if perPage <= 0 || (page - 1) * perPage >= |s| then 0
                   else Min(perPage, |s| - (page - 1) * perPage)
    ensures forall k :: 0 <= k < |r| ==> r[k] == s[(page - 1) * perPage + k]
  {
    var start := (page - 1) * perPage;
    var end := start + perPage;
    if start >= |s| || end <= start then [] else s[start..Min(end, |s|)]
  }

  /** A first page at least as large as the list holds the whole list. */
  lemma FirstPageIsAll(s: seq<Employee>, perPage: int)
    requires perPage >= |s|
    ensures Paginate(s, 1, perPage) == s
  {
  }

  /** Every record appears on the page its position says, at the offset its position says. */
  lemma RecordOnItsPage(s: seq<Employee>, perPage: int, i: nat)
    requires perPage >= 1 && i < |s|
    ensures var p := Paginate(s, i / perPage + 1, perPage);
      i % perPage < |p| && p[i % perPage] == s[i]
  {
  }
}
