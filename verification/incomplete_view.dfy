/** How the badge reads for two sources of counts: the query's own
    `report_count`, had the client read it, and the count the mapping writer
    returns after an add. */
module IncompleteView {
  import opened Types
  import opened MappingTable
  import opened MappingWriter
  import opened Coverage
  import opened IncompleteClient
  import opened StatusBadge

  /** If the client read each row's `report_count`, the badge would be exact:
      the query only returns counts of 0 or 1, so "1 Mapping" would be shown
      exactly for a count of one. The client as written reads a `reportCount`
      field that the rows do not carry. */
  lemma BadgeExactOnQueryRows(employees: seq<Employee>, table: seq<Row>, reports: seq<string>, i: int)
    requires 0 <= i < |IncompleteMappings(employees, table, reports)|
    ensures var row := IncompleteMappings(employees, table, reports)[i];
            && (GetStatusBadge(row.reportCount) == NoMappings <==> row.reportCount == 0)
            && (GetStatusBadge(row.reportCount) == OneMapping <==> row.reportCount == 1)
  {
  }

  /** After a successful add, the employee's entry holds the writer's count,
      which is at least one, so its badge is the warning badge. This assumes
      the add dialog posts the employee's id and passes the writer's count
      back to `handleMappingAdded`. */
  lemma AddedMappingShowsWarning(counts: map<string, int>, table: seq<Row>, employees: seq<Employee>, req: Request)
    requires Post(table, employees, req).0.Success?
    ensures var n := Post(table, employees, req).0.reportCount;
            GetStatusBadge(MappingAdded(counts, req.employeeId.value, n)[req.employeeId.value]) == OneMapping
  {
  }
}
