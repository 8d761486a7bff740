/** leader-app/components/employeeManagement/employeeManagement.tsx: the employee list
    screen reached from the navigator. It reloads the list whenever it gains focus, and
    removes an employee from the list only once the server has deleted it. */
module ManagedEmployeeScreen {
  import opened JsBuiltins
  import opened Forms
  import opened EmployeeList

  const CouldNotLoad: string := "לא הצלחנו לטעון את נתוני העובדים."
  const CouldNotDelete: string := "לא הצלחנו למחוק את העובד."

  /** The component's state: the list, the expanded row and the loading flag. */
  class Screen {
    var employeeData: seq<Employee>
    var expandedId: Option<int>
    var loading: bool

    /** The first render: an empty list, nothing expanded, loading. */
    constructor ()
      ensures employeeData == [] && expandedId == None && loading
    {
      employeeData := [];
      expandedId := None;
      loading := true;
    }

    /** `handlePress`: the toggle of the expanded row; the list is left alone. */
    method HandlePress(id: int)
      modifies this
      ensures expandedId == Toggle(old(expandedId), id)
      ensures employeeData == old(employeeData) && loading == old(loading)
    {
      expandedId := if expandedId == Some(id) then None else Some(id);
    }

    /** The focus effect: a fetch starts and the spinner is shown. */
    method StartFetch()
      modifies this
      ensures loading
      ensures employeeData == old(employeeData) && expandedId == old(expandedId)
    {
      loading := true;
    }

    /** `fetchEmployeeData` settling: `sortedData` is the list as the server sent it, already
        in the order the screen sorts it into, or `None` when the request failed. Either
        way the spinner goes; a failure alerts and keeps the old list. */
    method FinishFetch(sortedData: Option<seq<Employee>>) returns (alert: Option<Alert>)
      modifies this
      ensures !loading && expandedId == old(expandedId)
      ensures sortedData.Some? ==> employeeData == sortedData.value && alert.None?
      ensures sortedData.None? ==> employeeData == old(employeeData) && alert == Some(Alert(ErrorTitle, CouldNotLoad))
    {
      alert := None;
      match sortedData {
        case Some(data) =>
          employeeData := data;
        case None =>
          alert := Some(Alert(ErrorTitle, CouldNotLoad));
      }
      loading := false;
    }

    /** `deleteItem` once the delete request has settled: `deleted` says whether it
        succeeded. Only then are the entries with the id filtered out; otherwise the list
        stays and an error is alerted. */
    method DeleteItem(id: int, deleted: bool) returns (alert: Option<Alert>)
      modifies this
      ensures expandedId == old(expandedId) && loading == old(loading)
      ensures deleted ==> employeeData == RemoveId(old(employeeData), id) && alert.None?
      ensures !deleted ==> employeeData == old(employeeData) && alert == Some(Alert(ErrorTitle, CouldNotDelete))
    {
      if deleted {
        employeeData := RemoveId(employeeData, id);
        alert := None;
      } else {
        alert := Some(Alert(ErrorTitle, CouldNotDelete));
      }
    }

    /** The arrow of a row: up for the expanded row, down for the others. */
    function Arrow(e: Employee): (a: string)
      reads this
      ensures a == "▲" <==> IsExpanded(expandedId, e)
      ensures a == "▲" || a == "▼"
    {
      if expandedId == Some(e.id) then "▲" else "▼"
    }
  }
}
