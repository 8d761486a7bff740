/** The employee list both employeeManagement screens show: the list, the id of the one
    expanded row, and what pressing and deleting do to them. */
module EmployeeList {
  import opened JsBuiltins

  /** `interface Employee`. */
  datatype Employee = Employee(id: int, firstName: string, lastName: string, position: string,
                               phoneNumber: string, email: string)

  /** `expandedId === id ? null : id`: pressing the expanded row collapses it, pressing any
      other row expands that one, so at most one row is ever expanded. */
  function Toggle(expandedId: Option<int>, id: int): (r: Option<int>)
    ensures r.None? <==> expandedId == Some(id)
    ensures r.Some? ==> r.value == id
  {
    if expandedId == Some(id) then None else Some(id)
  }

  /** Pressing a row twice from any state other than that row expanded gives it back
      collapsed; in particular twice from nothing expanded returns to nothing expanded. */
  lemma TogglePair(expandedId: Option<int>, id: int)
    requires expandedId != Some(id)
    ensures Toggle(Toggle(expandedId, id), id) == None
  {
  }

  /** Whether a row shows its details (and the ▲ arrow). */
  predicate IsExpanded(expandedId: Option<int>, e: Employee)
    ensures expandedId == None ==> !IsExpanded(expandedId, e)
    ensures IsExpanded(expandedId, e) ==> Toggle(expandedId, e.id) == None
  {
    expandedId == Some(e.id)
  }

  /** After a press exactly the rows with the pressed id are expanded, or none. */
  lemma PressExpandsOnlyThatId(expandedId: Option<int>, id: int, e: Employee)
    ensures IsExpanded(Toggle(expandedId, id), e) <==> e.id == id && expandedId != Some(id)
  {
  }

  /** The number of entries with the id. */
  function CountId(list: seq<Employee>, id: int): nat {
    if |list| == 0 then 0 else CountId(list[..|list| - 1], id) + (if list[|list| - 1].id == id then 1 else 0)
  }

  /** `employeeData.filter(item => item.id !== id)`. */
  function RemoveId(list: seq<Employee>, id: int): (r: seq<Employee>)
    ensures |r| + CountId(list, id) == |list|
  {
    if |list| == 0 then []
    else
      var e := list[|list| - 1];
      RemoveId(list[..|list| - 1], id) + (if e.id != id then [e] else [])
  }

  /** An entry is left exactly when it was there and does not carry the id. */
  lemma {:induction false} RemoveIdMembers(list: seq<Employee>, id: int, e: Employee)
    ensures e in RemoveId(list, id) <==> e in list && e.id != id
  {
    if |list| > 0 {
      var n := |list| - 1;
      RemoveIdMembers(list[..n], id, e);
      assert list == list[..n] + [list[n]];
    }
  }

  /** The others keep their order: removing from two lists in a row removes from each. */
  lemma {:induction false} RemoveIdConcat(a: seq<Employee>, b: seq<Employee>, id: int)
    ensures RemoveId(a + b, id) == RemoveId(a, id) + RemoveId(b, id)
    decreases |b|
  {
    if |b| == 0 {
      assert a + b == a;
    } else {
      var n := |b| - 1;
      assert (a + b)[..|a + b| - 1] == a + b[..n];
      RemoveIdConcat(a, b[..n], id);
    }
  }

  /** Removing an id twice removes nothing more. */
  lemma {:induction false} RemoveIdIdempotent(list: seq<Employee>, id: int)
    ensures RemoveId(RemoveId(list, id), id) == RemoveId(list, id)
  {
    if |list| > 0 {
      var n := |list| - 1;
      RemoveIdIdempotent(list[..n], id);
      var front := RemoveId(list[..n], id);
      var tail := if list[n].id != id then [list[n]] else [];
      RemoveIdConcat(front, tail, id);
      assert RemoveId(tail, id) == tail by {
        if |tail| == 1 {
          assert tail[..0] == [];
        }
      }
    }
  }

  /** A list without the id is left as it is. */
  lemma {:induction false} RemoveAbsentId(list: seq<Employee>, id: int)
    requires forall i | 0 <= i < |list| :: list[i].id != id
    ensures RemoveId(list, id) == list
  {
    if |list| > 0 {
      var n := |list| - 1;
      assert forall i | 0 <= i < n :: list[..n][i].id != id by {
        assert forall i | 0 <= i < n :: list[..n][i] == list[i];
      }
      RemoveAbsentId(list[..n], id);
      assert list == list[..n] + [list[n]];
    }
  }
}
