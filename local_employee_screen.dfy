/** leader-app/components/employeeManagement.tsx: the older employee list screen. It loads
    the list once, and its delete only filters the list it holds. */
module LocalEmployeeScreen {
  import opened JsBuiltins
  import opened EmployeeList

  /** The component's state: the list, the expanded row and the loading flag. */
  class Screen {
    var employeeData: seq<Employee>
    var expandedId: Option<int>
    var loading: bool

    /** The first render: an empty list, nothing expanded, loading. */
    constructor ()
      ensures employeeData == [] && expandedId == None && loading
    {
      employeeData := [];
      expandedId := None;
      loading := true;
    }

    /** `handlePress`: the toggle of the expanded row; the list is left alone. */
    method HandlePress(id: int)
      modifies this
      ensures expandedId == Toggle(old(expandedId), id)
      ensures employeeData == old(employeeData) && loading == old(loading)
    {
      expandedId := if expandedId == Some(id) then None else Some(id);
    }

    /** `fetchEmployeeData` settling: `data` is `response.data.data`, unsorted, or `None`
        when the request failed, which is only logged. The spinner goes on both paths. */
    method FinishFetch(data: Option<seq<Employee>>)
      modifies this
      ensures !loading && expandedId == old(expandedId)
      ensures data.Some? ==> employeeData == data.value
      ensures data.None? ==> employeeData == old(employeeData)
    {
      if data.Some? {
        employeeData := data.value;
      }
      loading := false;
    }

    /** `deleteItem`: no request is made; the entries with the id leave the local list and
        nothing else changes. */
    method DeleteItem(id: int)
      modifies this
      ensures employeeData == RemoveId(old(employeeData), id)
      ensures expandedId == old(expandedId) && loading == old(loading)
    {
      employeeData := RemoveId(employeeData, id);
    }

    /** The arrow of a row: up for the expanded row, down for the others. */
    function Arrow(e: Employee): (a: string)
      reads this
      ensures a == "▲" <==> IsExpanded(expandedId, e)
      ensures a == "▲" || a == "▼"
    {
      if expandedId == Some(e.id) then "▲" else "▼"
    }
  }
}
