/** The `mappings` table shared by the mapping writer and the coverage query,
    and the pairwise rule by which a row selects an employee. */
module MappingTable {
  import opened Wrappers
  import opened Types

  /** One row of `mappings`; a NULL inclusion_flag is None. */
  datatype Row = Row(reportName: string, mappingType: string, mappingId: string, flag: Option<string>)

  const Yes: Option<string> := Some("Yes")

  /** The mapping_type values the table uses for the five axes. */
  const SnakeNames: set<string> := {"employee_id", "team_id", "area_id", "city_id", "country_id"}

  lemma SnakeNamesAreTheAxes(s: string)
    ensures s in SnakeNames <==> ParseSnake(s).Some?
  {
  }

  /** The OR-chained join condition of the coverage query: the row's type
      and id equal one (axis, employee value) pair. */
  predicate RowMatches(row: Row, e: Employee) {
    || (row.mappingType == "employee_id" && row.mappingId == e.id)
    || (row.mappingType == "team_id" && row.mappingId == e.teamId)
    || (row.mappingType == "area_id" && row.mappingId == e.areaId)
    || (row.mappingType == "city_id" && row.mappingId == e.cityId)
    || (row.mappingType == "country_id" && row.mappingId == e.countryId)
  }

  /** The join condition is pairwise: type and id must belong to the same axis. */
  lemma RowMatchesIffAxisField(row: Row, e: Employee)
    ensures RowMatches(row, e) <==>
            exists t: MappingType :: row.mappingType == t.SnakeName() && row.mappingId == Field(e, t)
  {
    if RowMatches(row, e) {
      var t := ParseSnake(row.mappingType).value;
      assert row.mappingType == t.SnakeName() && row.mappingId == Field(e, t);
    }
  }

  /** The key the writer upserts on. */
  predicate HasTriple(row: Row, reportName: string, mappingType: string, mappingId: string) {
    row.reportName == reportName && row.mappingType == mappingType && row.mappingId == mappingId
  }

  /** At most one row per (report_name, mapping_type, mapping_id). */
  predicate UniqueTriples(table: seq<Row>) {
    forall i, j :: 0 <= i < j < |table| ==>
      !HasTriple(table[j], table[i].reportName, table[i].mappingType, table[i].mappingId)
  }
}
