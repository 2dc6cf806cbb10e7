/** How the mapping writer's count query relates to the coverage query: the
    writer tests type and id separately, the coverage query pairwise, and
    the two treat NULL flags differently. */
module WriterVsCoverage {
  import opened Wrappers
  import opened Types
  import opened MappingTable
  import opened MappingWriter
  import opened Coverage

  /** Every 'Yes' row the pairwise join matches is also selected by the
      writer's separate IN tests. */
  lemma PairwiseWithinCrossProduct(row: Row, e: Employee)
    requires RowMatches(row, e) && row.flag == Yes
    ensures CountSelects(row, e)
  {
    RowMatchesIffAxisField(row, e);
    var t: MappingType :| row.mappingType == t.SnakeName() && row.mappingId == Field(e, t);
    assert row.mappingType in SnakeNames by {
      match t
      case EmployeeId =>
      case TeamId =>
      case AreaId =>
      case CityId =>
      case CountryId =>
    }
  }

  /** The reports the coverage query reaches through 'Yes' rows are among
      those the writer counts, so its count is at least as large. */
  lemma YesCoverageWithinCounted(table: seq<Row>, e: Employee)
    ensures (set row | row in table && RowMatches(row, e) && row.flag == Yes :: row.reportName)
              <= CountedReports(table, e)
  {
    forall row | row in table && RowMatches(row, e) && row.flag == Yes
      ensures row.reportName in CountedReports(table, e)
    {
      PairwiseWithinCrossProduct(row, e);
    }
  }

  /** Employee emp-101 of the sample data: team team-sales, country usa. */
  const SampleEmployee: Employee := Employee(
    "emp-101", "John Smith", "team-sales", "Sales", "area-north-america",
    "nyc", "New York", "usa", "USA", "New York, USA")

  /** A team_id row whose id is a country id: no team is called "usa". */
  const CrossedTable: seq<Row> := [Row("Q1 Sales Performance", "team_id", "usa", Yes)]

  /** The converse fails: the writer counts a report that the coverage query
      does not see, because the row's id is the employee's value on a
      different axis from the row's type. */
  lemma CrossProductOvercounts()
    ensures CountedReports(CrossedTable, SampleEmployee) == {"Q1 Sales Performance"}
    ensures ReportCount(CrossedTable, SampleEmployee) == 0
  {
    var row := CrossedTable[0];
    assert CountSelects(row, SampleEmployee);
    assert !RowMatches(row, SampleEmployee);
    assert forall r :: r in CrossedTable ==> r == row;
  }

  /** A NULL-flag row covers the employee for the coverage query but is
      ignored by the writer's count, which asks for 'Yes'. */
  const NullFlagTable: seq<Row> := [Row("Q1 Sales Performance", "team_id", "team-sales", None)]

  lemma NullFlagCountedOnlyByCoverage()
    ensures ReportCount(NullFlagTable, SampleEmployee) == 1
    ensures CountedReports(NullFlagTable, SampleEmployee) == {}
    ensures MappedReports(NullFlagTable, SampleEmployee, ["Q1 Sales Performance"]) == None
  {
    var row := NullFlagTable[0];
    assert RowMatches(row, SampleEmployee) && Inclusive(row);
    assert forall r :: r in NullFlagTable ==> r == row;
    assert CoveringReports(NullFlagTable, SampleEmployee) == {"Q1 Sales Performance"};
  }

  /** After a successful write, the coverage query sees the employee covered
      by the report named in the request. */
  lemma WriteCoversEmployee(table: seq<Row>, employees: seq<Employee>, req: Request)
    requires Post(table, employees, req).0.Success?
    ensures var e := FindEmployee(employees, req.employeeId.value).value;
            && req.reportName.value in CoveringReports(Post(table, employees, req).1, e)
            && ReportCount(Post(table, employees, req).1, e) >= 1
  {
    var e := FindEmployee(employees, req.employeeId.value).value;
    var t := ParseSnake(req.mappingType.value).value;
    var id := Field(e, t);
    var table' := Post(table, employees, req).1;
    var k :| 0 <= k < |table'| && HasTriple(table'[k], req.reportName.value, req.mappingType.value, id);
    RowMatchesIffAxisField(table'[k], e);
    assert RowMatches(table'[k], e) && Inclusive(table'[k]);
  }
}
